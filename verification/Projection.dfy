// The process part of a kernel run is a run of the process machine, so that what is proved of
// those holds of kernel runs.
module Projection {
  import opened Layout
  import opened Processes
  import opened ProcessInvariants
  import opened Scheduling
  import opened Semaphores
  import opened AddressSpaces
  import opened Kernel
  import opened Runs

  // What the process machine sees of a step: one event, or none for sbrk and stores.
  ghost function EventsOf(k: Kernel, e: KEvent): (evs: seq<Event>)
    requires KShape(k) && KEnabled(k, e)
    ensures |evs| <= 1
  {
    match e
    case Proc(pe) => [pe]
    case SysFork =>
      [DoFork(k.procs.queues[FREE] == [] || AddressSpaces.Fork(k.mem, Cur(k.procs).dir, ChildDir(k.procs)).1)]
    case SysExit => [DoExit]
    case SysSbrk(_) => []
    case Store(_, _, _) => []
  }

  lemma StepProjects(k: Kernel, e: KEvent)
    requires KShape(k) && KEnabled(k, e)
    ensures var evs := EventsOf(k, e); var s' := KStep(k, e).0.procs;
            if evs == [] then s' == k.procs
            else Enabled(k.procs, evs[0]) && (s', KStep(k, e).1) == Step(k.procs, evs[0])
  {
    hide AddressSpaces.Fork, Processes.Fork, Processes.Exit, FreeDir, Covered, Sbrk, Write;
    if e == SysFork { RefusedFork(k.procs); }
  }

  lemma RefusedFork(s: Procs)
    requires Shape(s)
    ensures s.queues[FREE] == [] ==> Processes.Fork(s, true) == (s, Returns(-EAGAIN))
  {
  }

  // The events of steps i .. j - 1.
  ghost function Project(states: seq<Kernel>, evs: seq<KEvent>, i: nat, j: nat): (p: seq<Event>)
    requires KRun(states, evs) && i <= j <= |evs|
    decreases j
  {
    if i == j then []
    else
      assert KNext(states[j - 1], evs[j - 1], states[j - 1 + 1]);
      Project(states, evs, i, j - 1) + EventsOf(states[j - 1], evs[j - 1])
  }

  lemma OneMoreEvent(s: Procs, p: seq<Event>, e: Event)
    requires Shape(s)
    ensures Run(s, p + [e]) == Step(Run(s, p), e).0
    ensures Legal(s, p + [e]) <==> Legal(s, p) && Enabled(Run(s, p), e)
  {
    hide Step, Enabled;
    assert (p + [e])[..|p|] == p;
  }

  // From state i to state j the process part of a kernel run is the run under these events.
  lemma {:induction false} ProcessRun(states: seq<Kernel>, evs: seq<KEvent>, i: nat, j: nat)
    requires KRun(states, evs) && i <= j <= |evs|
    ensures var p := Project(states, evs, i, j); var s := states[i].procs;
            Shape(s) && Legal(s, p) && Run(s, p) == states[j].procs
    decreases j
  {
    hide KStep, KEnabled, Enabled, Step, EventsOf;
    if i < j {
      ProcessRun(states, evs, i, j - 1);
      var k := states[j - 1];
      assert KNext(k, evs[j - 1], states[j - 1 + 1]);
      StepProjects(k, evs[j - 1]);
      var more := EventsOf(k, evs[j - 1]);
      var p := Project(states, evs, i, j - 1);
      if more == [] {
        assert p + more == p;
      } else {
        assert more == [more[0]];
        OneMoreEvent(states[i].procs, p, more[0]);
      }
    }
  }

  // Event n of the projection is that of some step m, and what comes before it is the projection
  // up to m.
  lemma {:induction false} Located(states: seq<Kernel>, evs: seq<KEvent>, i: nat, j: nat, n: nat) returns (m: nat)
    requires KRun(states, evs) && i <= j <= |evs| && n < |Project(states, evs, i, j)|
    ensures i <= m < j && Project(states, evs, i, m) == Project(states, evs, i, j)[..n]
    ensures KShape(states[m]) && KEnabled(states[m], evs[m])
            && EventsOf(states[m], evs[m]) == [Project(states, evs, i, j)[n]]
    decreases j
  {
    hide KStep, KEnabled, EventsOf;
    assert KNext(states[j - 1], evs[j - 1], states[j - 1 + 1]);
    var before := Project(states, evs, i, j - 1);
    if n < |before| {
      m := Located(states, evs, i, j - 1, n);
    } else {
      m := j - 1;
    }
  }

  // Every prefix of the projection leads to a state of the kernel run.
  lemma StateOfPrefix(states: seq<Kernel>, evs: seq<KEvent>, i: nat, j: nat, n: nat) returns (m: nat)
    requires KRun(states, evs) && i <= j <= |evs| && n <= |Project(states, evs, i, j)|
    ensures i <= m <= j && Run(states[i].procs, Project(states, evs, i, j)[..n]) == states[m].procs
  {
    var p := Project(states, evs, i, j);
    if n == |p| {
      m := j;
      assert p[..n] == p;
    } else {
      m := Located(states, evs, i, j, n);
    }
    ProcessRun(states, evs, i, m);
  }

  lemma {:induction false} ProjectionGrows(states: seq<Kernel>, evs: seq<KEvent>, i: nat, m: nat, j: nat)
    requires KRun(states, evs) && i <= m <= j <= |evs|
    ensures Project(states, evs, i, m) <= Project(states, evs, i, j)
    decreases j
  {
    hide EventsOf, KStep, KEnabled;
    if m < j { ProjectionGrows(states, evs, i, m, j - 1); }
  }

  /* Bounded waiting */

  // How often a step of this kind occurs.
  function KCount(evs: seq<KEvent>, e: KEvent): (n: nat) {
    if evs == [] then 0 else KCount(evs[..|evs| - 1], e) + if evs[|evs| - 1] == e then 1 else 0
  }

  function ClockTicks(evs: seq<KEvent>): (n: nat) {
    KCount(evs, Proc(ClockTick))
  }

  lemma {:induction false} CountProjected(states: seq<Kernel>, evs: seq<KEvent>, i: nat, j: nat, e: Event)
    requires KRun(states, evs) && i <= j <= |evs| && !e.DoFork? && !e.DoExit?
    ensures Count(Project(states, evs, i, j), e) == KCount(evs[i..j], Proc(e))
    decreases j
  {
    hide KStep, KEnabled, Count;
    if i == j {
      CountOneMore([], e, e);
    } else {
      CountProjected(states, evs, i, j - 1, e);
      assert KNext(states[j - 1], evs[j - 1], states[j - 1 + 1]);
      var p := Project(states, evs, i, j - 1);
      var more := EventsOf(states[j - 1], evs[j - 1]);
      assert evs[i..j][..j - i - 1] == evs[i..j - 1] && evs[i..j][j - i - 1] == evs[j - 1];
      if more == [] {
        assert p + more == p;
      } else {
        assert more == [more[0]];
        CountOneMore(p, more[0], e);
      }
    }
  }

  // In a kernel run a ready task gets the processor within its delay in clock ticks.
  lemma KernelBoundedWaiting(states: seq<Kernel>, evs: seq<KEvent>, i: nat, j: nat, p: TaskId) returns (m: nat)
    requires KRun(states, evs) && i <= j <= |evs| && p in states[i].procs.queues[READY]
    requires ClockTicks(evs[i..j]) >= Delay(states[i].procs, p)
    ensures i <= m <= j && states[m].procs.current == p
  {
    hide Inv, Delay, Legal, Run, KNext;
    var s := states[i].procs;
    RunOneHeap(states, evs, i);
    ProcessRun(states, evs, i, j);
    CountProjected(states, evs, i, j, ClockTick);
    var q := Project(states, evs, i, j);
    BoundedWaiting(s, q, p);
    var n :| 0 <= n <= |q| && Run(s, q[..n]).current == p;
    m := StateOfPrefix(states, evs, i, j, n);
  }

  /* Semaphores */

  // No signal of steps i .. j - 1 overflows the counter of semaphore n.
  ghost predicate KernelFits(states: seq<Kernel>, evs: seq<KEvent>, i: nat, j: nat, n: nat)
    requires KRun(states, evs) && j <= |evs| && n < NR_SEMS
  {
    forall m :: i <= m < j && evs[m].Proc? ==> !Wraps(states[m].procs, evs[m].e, n)
  }

  // The law holds in the states i .. j.
  ghost predicate KernelObeys(states: seq<Kernel>, evs: seq<KEvent>, i: nat, j: nat, n: nat)
    requires KRun(states, evs) && j <= |evs| && n < NR_SEMS
  {
    forall m :: i <= m <= j ==> Obeys(states[i].procs, Project(states, evs, i, m), n)
  }

  lemma {:induction false} FitsProjected(states: seq<Kernel>, evs: seq<KEvent>, i: nat, j: nat, n: nat)
    requires KRun(states, evs) && i <= j <= |evs| && n < NR_SEMS
    ensures Fits(states[i].procs, Project(states, evs, i, j), n) <==> KernelFits(states, evs, i, j, n)
    ensures ObeysAllAlong(states[i].procs, Project(states, evs, i, j), n) <==> KernelObeys(states, evs, i, j, n)
    decreases j
  {
    if i == j {
      hide KRun, KStep, KEnabled, Obeys, Run, Wraps;
      var p := Project(states, evs, i, j);
      assert p == [] && p[..0] == p;
    } else {
      hide *;
      FitsProjected(states, evs, i, j - 1, n);
      KernelOneMore(states, evs, i, j, n);
      LastProjected(states, evs, i, j, n);
    }
  }

  lemma KernelOneMore(states: seq<Kernel>, evs: seq<KEvent>, i: nat, j: nat, n: nat)
    requires KRun(states, evs) && i < j <= |evs| && n < NR_SEMS
    ensures KernelFits(states, evs, i, j, n) <==>
            KernelFits(states, evs, i, j - 1, n)
            && (evs[j - 1].Proc? ==> !Wraps(states[j - 1].procs, evs[j - 1].e, n))
    ensures KernelObeys(states, evs, i, j, n) <==>
            KernelObeys(states, evs, i, j - 1, n) && Obeys(states[i].procs, Project(states, evs, i, j), n)
  {
    hide KNext, Obeys, Wraps, Project;
  }

  lemma LastProjected(states: seq<Kernel>, evs: seq<KEvent>, i: nat, j: nat, n: nat)
    requires KRun(states, evs) && i < j <= |evs| && n < NR_SEMS
    ensures var s := states[i].procs; var p := Project(states, evs, i, j - 1); var q := Project(states, evs, i, j);
            && (Fits(s, q, n) <==>
                  Fits(s, p, n) && (evs[j - 1].Proc? ==> !Wraps(states[j - 1].procs, evs[j - 1].e, n)))
            && (ObeysAllAlong(s, q, n) <==> ObeysAllAlong(s, p, n) && Obeys(s, q, n))
  {
    hide KStep, KEnabled, Obeys, Run, Fits, ObeysAllAlong, Legal, Open, LogOf, Enabled, Step, Observe;
    var s := states[i].procs;
    var p := Project(states, evs, i, j - 1);
    ProcessRun(states, evs, i, j - 1);
    assert KNext(states[j - 1], evs[j - 1], states[j - 1 + 1]);
    var more := EventsOf(states[j - 1], evs[j - 1]);
    if more == [] {
      assert p + more == p;
      Whole(s, p, n);
    } else {
      assert more == [more[0]];
      Extended(s, p, more[0], n);
      ExtendedObeys(s, p, more[0], n);
    }
  }

  lemma Whole(s: Procs, p: seq<Event>, n: nat)
    requires Shape(s) && n < NR_SEMS
    ensures ObeysAllAlong(s, p, n) ==> Obeys(s, p, n)
  {
    hide Obeys;
    assert p[..|p|] == p;
  }

  // In a kernel run in which a semaphore stays initialised, from a counter that is not negative,
  // it obeys its law in every state if and only if no signal overflows the counter. The waits and
  // signals the law speaks of are all those among the steps.
  lemma KernelSemaphoreLaw(states: seq<Kernel>, evs: seq<KEvent>, i: nat, j: nat, n: nat)
    requires KRun(states, evs) && i <= j <= |evs| && n < NR_SEMS
    requires forall m :: i <= m <= j ==> states[m].procs.sems[n].owner != -1
    requires states[i].procs.sems[n].counter >= 0 && Waiters(states[i].procs, n) == []
    ensures KernelObeys(states, evs, i, j, n) <==> KernelFits(states, evs, i, j, n)
    ensures Run(states[i].procs, Project(states, evs, i, j)) == states[j].procs
    ensures var p := Project(states, evs, i, j);
            && Count(p, Wait(n)) == KCount(evs[i..j], Proc(Wait(n)))
            && Count(p, Signal(n)) == KCount(evs[i..j], Proc(Signal(n)))
  {
    hide Inv, Legal, Run, KNext, LogOf, Obeys, KernelObeys, KernelFits, Fits, ObeysAllAlong, Count, KCount;
    var s := states[i].procs;
    var q := Project(states, evs, i, j);
    RunOneHeap(states, evs, i);
    ProcessRun(states, evs, i, j);
    forall k | 0 <= k <= |q| ensures Run(s, q[..k]).sems[n].owner != -1 {
      var m := StateOfPrefix(states, evs, i, j, k);
    }
    FitsProjected(states, evs, i, j, n);
    LawAllAlongExactly(s, q, n);
    CountProjected(states, evs, i, j, Wait(n));
    CountProjected(states, evs, i, j, Signal(n));
  }

  // The projection up to a step that the process machine sees, and that step in it.
  lemma StepAt(states: seq<Kernel>, evs: seq<KEvent>, i: nat, j: nat)
    requires KRun(states, evs) && i < j <= |evs| && KShape(states[i]) && KEnabled(states[i], evs[i])
    requires EventsOf(states[i], evs[i]) != []
    ensures var q := Project(states, evs, 0, j); var a := |Project(states, evs, 0, i)|;
            && a < |q| && q[..a] == Project(states, evs, 0, i) && [q[a]] == EventsOf(states[i], evs[i])
            && q[..a + 1] == Project(states, evs, 0, i + 1)
  {
    hide EventsOf, KStep, KEnabled;
    ProjectionGrows(states, evs, 0, i, j);
    ProjectionGrows(states, evs, 0, i + 1, j);
    var q := Project(states, evs, 0, j);
    var p := Project(states, evs, 0, i + 1);
    assert p == q[..|p|];
  }

  lemma StateAt(states: seq<Kernel>, evs: seq<KEvent>, i: nat)
    requires KRun(states, evs) && i <= |evs|
    ensures Run(states[0].procs, Project(states, evs, 0, i)) == states[i].procs
  {
    ProcessRun(states, evs, 0, i);
  }

  // p, released by step i, has not resumed before step j.
  ghost predicate NotResumed(states: seq<Kernel>, evs: seq<KEvent>, i: nat, j: nat, p: TaskId)
    requires KRun(states, evs) && j <= |evs|
  {
    forall m :: i < m < j ==> !(evs[m] == Proc(Resume) && states[m].procs.current == p)
  }

  lemma HeldProjected(states: seq<Kernel>, evs: seq<KEvent>, i: nat, j: nat, p: TaskId)
    requires KRun(states, evs) && i < j <= |evs| && NotResumed(states, evs, i, j, p)
    ensures HeldBetween(states[0].procs, Project(states, evs, 0, j), |Project(states, evs, 0, i)|,
                        |Project(states, evs, 0, j)|, p)
  {
    hide KStep, KEnabled;
    var q := Project(states, evs, 0, j);
    var a := |Project(states, evs, 0, i)|;
    forall k | a < k < |q| ensures !(q[k].Resume? && Run(states[0].procs, q[..k]).current == p) {
      var m := Located(states, evs, 0, j, k);
      StateAt(states, evs, m);
      if m <= i { ProjectionGrows(states, evs, 0, m, i); }
    }
  }

  // In a kernel run a wait that blocked returns 0 exactly when a signal released it, and -EINVAL
  // exactly when a destroy, or the exit of the owner, did.
  lemma KernelWaitOutcome(states: seq<Kernel>, evs: seq<KEvent>, n: nat, i: nat, j: nat, p: TaskId)
    requires KRun(states, evs) && n < NR_SEMS && i < j < |evs| && NotResumed(states, evs, i, j, p)
    requires p in Waiters(states[i].procs, n) && p !in Waiters(states[i + 1].procs, n)
    requires evs[j] == Proc(Resume) && states[j].procs.current == p
    ensures KEnabled(states[j], evs[j])
    ensures var result := KStep(states[j], evs[j]).1; var s := states[i].procs;
            && (result == Returns(0) <==> evs[i] == Proc(Signal(n)))
            && (result == Returns(-EINVAL) <==>
                (evs[i] == Proc(Destroy(n)) || evs[i] == SysExit) && s.sems[n].owner == Cur(s).pid)
            && (result == Returns(0) || result == Returns(-EINVAL))
  {
    hide Inv, Legal, Enabled, Step, Run, EventsOf, KStep, KEnabled, Waiters, NotResumed, Project;
    assert KNext(states[i], evs[i], states[i + 1]) && KNext(states[j], evs[j], states[j + 1]);
    StepProjects(states[i], evs[i]);
    StepProjects(states[j], evs[j]);
    Seen(states[i], evs[i]);
    Seen(states[j], evs[j]);
    RunOneHeap(states, evs, 0);
    hide KRun, KNext;
    BothSteps(states, evs, i, j, p);
    var q := Project(states, evs, 0, j + 1);
    WaitOutcome(states[0].procs, q, n, |Project(states, evs, 0, i)|, |Project(states, evs, 0, j)|, p);
  }

  // Steps i and j in the projection.
  lemma BothSteps(states: seq<Kernel>, evs: seq<KEvent>, i: nat, j: nat, p: TaskId)
    requires KRun(states, evs) && i < j < |evs| && NotResumed(states, evs, i, j, p)
    requires KEnabled(states[i], evs[i]) && KEnabled(states[j], evs[j])
    requires EventsOf(states[i], evs[i]) != [] && EventsOf(states[j], evs[j]) != []
    ensures var s := states[0].procs; var q := Project(states, evs, 0, j + 1);
            var a, b := |Project(states, evs, 0, i)|, |Project(states, evs, 0, j)|;
            && a < b < |q| && Legal(s, q) && HeldBetween(s, q, a, b, p)
            && [q[a]] == EventsOf(states[i], evs[i]) && [q[b]] == EventsOf(states[j], evs[j])
            && Run(s, q[..a]) == states[i].procs && Run(s, q[..a + 1]) == states[i + 1].procs
            && Run(s, q[..b]) == states[j].procs
  {
    hide Inv, Legal, Enabled, Step, Run, EventsOf, KStep, KEnabled, NotResumed, Project, HeldBetween;
    var q := Project(states, evs, 0, j + 1);
    var a, b := |Project(states, evs, 0, i)|, |Project(states, evs, 0, j)|;
    StepAt(states, evs, i, j + 1);
    StepAt(states, evs, j, j + 1);
    StateAt(states, evs, i);
    StateAt(states, evs, i + 1);
    StateAt(states, evs, j);
    HeldProjected(states, evs, i, j, p);
    ProcessRun(states, evs, 0, j + 1);
    StepAt(states, evs, i, j);
    HeldLonger(states[0].procs, Project(states, evs, 0, j), q, a, b, p);
  }

  lemma Seen(k: Kernel, e: KEvent)
    requires KShape(k) && KEnabled(k, e)
    ensures EventsOf(k, e) == [] ==> e.SysSbrk? || e.Store?
    ensures EventsOf(k, e) != [] ==>
              && (forall pe: Event :: !pe.DoFork? && !pe.DoExit? ==> (EventsOf(k, e)[0] == pe <==> e == Proc(pe)))
              && (EventsOf(k, e)[0] == DoExit <==> e == SysExit)
  {
  }

  lemma HeldLonger(s: Procs, p: seq<Event>, q: seq<Event>, a: nat, b: nat, t: TaskId)
    requires Shape(s) && |p| == b <= |q| && q[..b] == p && HeldBetween(s, p, a, b, t)
    ensures HeldBetween(s, q, a, b, t)
  {
    forall k | a < k < b ensures !(q[k].Resume? && Run(s, q[..k]).current == t) {
      assert q[..k] == p[..k] && q[k] == p[k];
    }
  }
}
