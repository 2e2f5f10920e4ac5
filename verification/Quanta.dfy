// Who runs and for how long: a task that is dispatched keeps the processor until it gives it up
// or a full quantum of ticks has passed.
module Quanta {
  import opened Layout
  import opened Queues
  import opened Processes
  import opened ProcessInvariants
  import opened ProcessSteps
  import opened Scheduling
  import opened Semaphores
  import opened Outcomes
  import MemoryInvariants
  import AddressSpaces
  import opened Kernel
  import opened Runs
  import opened Projection

  /* One step */

  // A tick takes one off the ticks left, and changes nothing else until the last one: then the
  // caller goes behind all ready tasks and the first of them, itself if there is no other, gets
  // a full quantum. Under idle, which runs only when nobody is ready, ticks just count down.
  lemma TickExactly(s: Procs)
    requires Shape(s) && Inv(s)
    ensures var s' := Tick(s);
            && (s.current != s.idle && s.leftTicks > 1 ==> s' == s.(leftTicks := s.leftTicks - 1))
            && (s.current != s.idle && s.leftTicks == 1 ==>
                  && GoesTo(s, s', s.queues[READY] + [s.current])
                  && s'.sems == s.sems && NobodyComesOrGoes(s, s')
                  && forall n: nat :: n < NR_SEMS ==> Untouched(s, s', n))
            && (s.current == s.idle ==>
                  s' == s.(leftTicks := if s.leftTicks == 0 then TWO_32 - 1 else UInt32(s.leftTicks - 1)))
  {
    if s.current != s.idle && s.leftTicks == 1 {
      LastTick(s);
      forall n: nat | n < NR_SEMS ensures Untouched(s, Tick(s), n) { TickUntouched(s, n); }
    }
  }

  lemma LastTick(s: Procs)
    requires Shape(s) && Inv(s) && s.current != s.idle && s.leftTicks == 1
    ensures var s' := Tick(s);
            GoesTo(s, s', s.queues[READY] + [s.current]) && s'.sems == s.sems && NobodyComesOrGoes(s, s')
  {
    var s1 := Park(s.(leftTicks := 0), READY, StReady);
    assert Tick(s) == SchedNext(s1);
    Dispatching(s1);
  }

  // The running task gives the processor up: it exits, or waits for a unit that is not there.
  predicate Yields(s: Procs, e: Event)
    requires Shape(s)
  {
    e.DoExit? || (e.Wait? && IsOpen(s, e.n) && s.sems[e.n].counter <= 0)
  }

  // A step that is neither a tick nor a yield leaves the processor alone.
  lemma OtherStepKeeps(s: Procs, e: Event)
    requires Shape(s) && Inv(s) && Enabled(s, e) && !Yields(s, e) && !e.ClockTick?
    ensures var s' := Step(s, e).0; s'.current == s.current && s'.idle == s.idle && s'.leftTicks == s.leftTicks
    ensures Step(s, e).0.tasks[s.current].quantum == Cur(s).quantum
  {
    match e
    case Init(n, v) => InitOutcome(s, n, v);
    case Wait(n) => WaitRefusedExactly(s, n);
    case Resume =>
    case Signal(n) => SignalOutcome(s, n);
    case Destroy(n) => DestroyOutcome(s, n);
    case DoClone(f, st) => CloneOutcome(s, f, st);
    case DoFork(g) => ForkOutcome(s, g);
    hide Inv, Step;
  }

  // The processor changes hands, or starts a quantum again, by a yield or a last tick only; and who
  // gets it, unless that is idle, gets a full quantum.
  lemma DispatchExactly(s: Procs, e: Event)
    requires Shape(s) && Inv(s) && Enabled(s, e) && s.current != s.idle
    ensures var s' := Step(s, e).0; var last := e.ClockTick? && s.leftTicks == 1;
            && (!Yields(s, e) && !last ==>
                  s'.current == s.current && s'.leftTicks == s.leftTicks - if e.ClockTick? then 1 else 0)
            && (Yields(s, e) || last ==>
                  s'.current == s'.idle || s'.leftTicks == s'.tasks[s'.current].quantum)
            && s'.idle == s.idle
  {
    if e.ClockTick? {
      TickExactly(s);
    } else if !Yields(s, e) {
      OtherStepKeeps(s, e);
    } else if e.DoExit? {
      ExitOutcome(s);
      NewRunner(s, Exit(s), s.queues[READY] + Evictees(s, NR_SEMS));
      hide Exit, Evictees, Inv;
    } else {
      WaitBlocks(s, e.n);
      hide SemWait;
    }
  }

  lemma NewRunner(s: Procs, s': Procs, ready: seq<TaskId>)
    requires Shape(s) && Shape(s') && GoesTo(s, s', ready) && s'.idle == s.idle
    requires forall p: TaskId :: s'.tasks[p].quantum == s.tasks[p].quantum
    ensures s'.current == s'.idle || s'.leftTicks == s'.tasks[s'.current].quantum
  {
  }

  /* Whole runs */

  // The task that runs in s never gives the processor up in the run.
  ghost predicate NeverYields(s: Procs, evs: seq<Event>)
    requires Shape(s)
  {
    forall k :: 0 <= k < |evs| ==> !(Run(s, evs[..k]).current == s.current && Yields(Run(s, evs[..k]), evs[k]))
  }

  // So with fewer ticks than it has left it still runs, with the difference left.
  lemma {:induction false} StillRuns(s: Procs, evs: seq<Event>)
    requires Shape(s) && Inv(s) && Legal(s, evs) && s.current != s.idle && NeverYields(s, evs)
    requires Ticks(evs) < s.leftTicks
    ensures var s' := Run(s, evs);
            s'.current == s.current && s'.idle == s.idle && s'.leftTicks == s.leftTicks - Ticks(evs)
  {
    if evs != [] {
      var k := |evs| - 1;
      assert forall i :: 0 <= i <= k ==> evs[..k][..i] == evs[..i];
      assert NeverYields(s, evs[..k]);
      hide Inv, Step, Yields;
      StillRuns(s, evs[..k]);
      RunInv(s, evs[..k]);
      DispatchExactly(Run(s, evs[..k]), evs[k]);
    }
  }

  // And with the last of its ticks it goes behind all that are ready then.
  lemma QuantumExactly(s: Procs, evs: seq<Event>)
    requires Shape(s) && Inv(s) && Legal(s, evs + [ClockTick]) && s.current != s.idle && NeverYields(s, evs)
    requires Ticks(evs) == s.leftTicks - 1
    ensures var s1 := Run(s, evs); var s2 := Run(s, evs + [ClockTick]);
            && s1.current == s.current && GoesTo(s1, s2, s1.queues[READY] + [s.current])
            && (s2.current == s.current <==> s1.queues[READY] == [])
  {
    assert (evs + [ClockTick])[..|evs|] == evs;
    StillRuns(s, evs);
    RunInv(s, evs);
    hide Inv, Tick;
    var s1 := Run(s, evs);
    TickExactly(s1);
    NotReady(s1);
    if s1.queues[READY] != [] { assert s1.queues[READY][0] in s1.queues[READY]; }
  }

  /* The quantum is 50 */

  ghost predicate AllQuanta50(s: Procs)
    requires Shape(s)
  {
    forall p: TaskId :: p !in s.queues[FREE] ==> s.tasks[p].quantum == 50
  }

  lemma StepQuanta(s: Procs, e: Event)
    requires Shape(s) && Inv(s) && Enabled(s, e) && AllQuanta50(s)
    ensures AllQuanta50(Step(s, e).0)
  {
    hide Inv;
    match e
    case DoClone(f, st) =>
      CloneOutcome(s, f, st);
      CallerInUse(s);
      hide Clone;
    case DoFork(g) =>
      ForkOutcome(s, g);
      CallerInUse(s);
      if s.queues[FREE] != [] { NewQuantum(s, g); }
      hide Processes.Fork;
    case DoExit =>
      ExitOutcome(s);
      hide Exit;
    case _ => QuietBooks(s, e);
  }

  // Also of a child that gets no memory.
  lemma NewQuantum(s: Procs, granted: bool)
    requires Shape(s) && Inv(s) && Enabled(s, DoFork(granted)) && s.queues[FREE] != []
    ensures Processes.Fork(s, granted).0.tasks[s.queues[FREE][0]].quantum == Cur(s).quantum
  {
  }

  lemma CallerInUse(s: Procs)
    requires Shape(s) && Inv(s)
    ensures s.current !in s.queues[FREE]
  {
    SpecialTasksInUse(s);
  }

  // In every state of every run from boot each PCB in use has a quantum of 50 ticks.
  lemma {:induction false} RunQuanta(evs: seq<Event>)
    requires Legal(Boot(), evs)
    ensures AllQuanta50(Run(Boot(), evs))
  {
    BootInv();
    if evs == [] {
      BootQuanta();
    } else {
      var k := |evs| - 1;
      RunQuanta(evs[..k]);
      RunInv(Boot(), evs[..k]);
      hide Inv, Step, Boot;
      StepQuanta(Run(Boot(), evs[..k]), evs[k]);
    }
  }

  lemma BootQuanta()
    ensures AllQuanta50(Boot()) && Boot().leftTicks == 50
  {
    forall p: TaskId ensures p in Boot().queues[FREE] <==> p >= 2 { BootFree(p); }
  }

  /* Kernel runs */

  predicate KYields(k: Kernel, e: KEvent)
    requires KShape(k)
  {
    e.SysExit? || (e.Proc? && Yields(k.procs, e.e))
  }

  // A step of the kernel seen from the processor: as DispatchExactly has it.
  lemma KDispatchExactly(k: Kernel, e: KEvent)
    requires KShape(k) && KInv(k) && KEnabled(k, e) && k.procs.current != k.procs.idle
    ensures var s := k.procs; var s' := KStep(k, e).0.procs;
            var tick := e == Proc(ClockTick); var last := tick && s.leftTicks == 1;
            && (!KYields(k, e) && !last ==>
                  s'.current == s.current && s'.leftTicks == s.leftTicks - if tick then 1 else 0)
            && (KYields(k, e) || last ==>
                  s'.current == s'.idle || s'.leftTicks == s'.tasks[s'.current].quantum)
            && s'.idle == s.idle
  {
    hide Inv, MemoryInvariants.MemInv, Step, KStep, KEnabled;
    StepProjects(k, e);
    Seen(k, e);
    var seen := EventsOf(k, e);
    if seen != [] {
      hide EventsOf;
      DispatchExactly(k.procs, seen[0]);
      YieldSeen(k, e);
    }
  }

  lemma YieldSeen(k: Kernel, e: KEvent)
    requires KShape(k) && KEnabled(k, e) && EventsOf(k, e) != []
    ensures Yields(k.procs, EventsOf(k, e)[0]) <==> KYields(k, e)
    ensures EventsOf(k, e)[0].ClockTick? <==> e == Proc(ClockTick)
  {
  }

  // The task that runs in state i does not give the processor up in steps i .. j - 1.
  ghost predicate KNeverYields(states: seq<Kernel>, evs: seq<KEvent>, i: nat, j: nat)
    requires KRun(states, evs) && i <= j <= |evs|
  {
    forall m :: i <= m < j ==> !(states[m].procs.current == states[i].procs.current && KYields(states[m], evs[m]))
  }

  // In a kernel run a task that does not give the processor up keeps it as long as it has ticks left.
  lemma {:induction false} KernelStillRuns(states: seq<Kernel>, evs: seq<KEvent>, i: nat, j: nat)
    requires KRun(states, evs) && i <= j <= |evs| && states[i].procs.current != states[i].procs.idle
    requires KNeverYields(states, evs, i, j) && ClockTicks(evs[i..j]) < states[i].procs.leftTicks
    ensures var s := states[i].procs; var s' := states[j].procs;
            s'.current == s.current && s'.idle == s.idle && s'.leftTicks == s.leftTicks - ClockTicks(evs[i..j])
    decreases j
  {
    hide KInv, KStep, KEnabled, KYields;
    if i < j {
      assert evs[i..j][..j - i - 1] == evs[i..j - 1] && evs[i..j][j - i - 1] == evs[j - 1];
      KernelStillRuns(states, evs, i, j - 1);
      RunOneHeap(states, evs, j - 1);
      assert KNext(states[j - 1], evs[j - 1], states[j - 1 + 1]);
      KDispatchExactly(states[j - 1], evs[j - 1]);
    }
  }

  // With the last of them it goes behind all that are ready, and the first of these runs.
  lemma KernelQuantumExactly(states: seq<Kernel>, evs: seq<KEvent>, i: nat, j: nat)
    requires KRun(states, evs) && i <= j < |evs| && states[i].procs.current != states[i].procs.idle
    requires KNeverYields(states, evs, i, j) && ClockTicks(evs[i..j]) == states[i].procs.leftTicks - 1
    requires evs[j] == Proc(ClockTick)
    ensures var s1 := states[j].procs; var s2 := states[j + 1].procs;
            && s1.current == states[i].procs.current && GoesTo(s1, s2, s1.queues[READY] + [s1.current])
            && (s2.current == s1.current <==> s1.queues[READY] == [])
  {
    KernelStillRuns(states, evs, i, j);
    RunOneHeap(states, evs, j);
    assert KNext(states[j], evs[j], states[j + 1]);
    hide Inv, MemoryInvariants.MemInv, KNeverYields, ClockTicks, Tick;
    var s1 := states[j].procs;
    TickExactly(s1);
    NotReady(s1);
    if s1.queues[READY] != [] { assert s1.queues[READY][0] in s1.queues[READY]; }
  }

  // Each PCB in use has a quantum of 50 ticks in every state, so who is dispatched has 50.
  lemma KernelQuanta(states: seq<Kernel>, evs: seq<KEvent>, i: nat)
    requires KRun(states, evs) && i < |evs| && states[i].procs.current != states[i].procs.idle
    ensures var s := states[i].procs; var s' := states[i + 1].procs;
            && AllQuanta50(s) && AllQuanta50(s') && 1 <= s.leftTicks <= 50
            && (s'.current != s'.idle && s'.current != s.current ==> s'.leftTicks == 50)
  {
    KernelRunQuanta(states, evs, i);
    KernelRunQuanta(states, evs, i + 1);
    RunOneHeap(states, evs, i);
    RunOneHeap(states, evs, i + 1);
    assert KNext(states[i], evs[i], states[i + 1]);
    KDispatchExactly(states[i], evs[i]);
    hide KStep, KEnabled;
    CallerInUse(states[i].procs);
    CallerInUse(states[i + 1].procs);
  }

  lemma KernelRunQuanta(states: seq<Kernel>, evs: seq<KEvent>, i: nat)
    requires KRun(states, evs) && i <= |evs|
    ensures AllQuanta50(states[i].procs)
  {
    var guard0, guard1, ram :| states[0] == KBoot(guard0, guard1, ram);
    ProcessRun(states, evs, 0, i);
    hide Boot, AddressSpaces.BootMem, Legal, Run;
    RunQuanta(Project(states, evs, 0, i));
  }
}
