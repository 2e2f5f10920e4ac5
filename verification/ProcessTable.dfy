// The process side of the kernel as the source has it: an array of PCBs with intrusive list
// links, the ring heads, the semaphores and the directory counters, all updated in place.
// Every method is proved to do to the abstract state what the process machine prescribes.
module ProcessTable {
  import opened Layout
  import opened Queues
  import opened Lists
  import opened Processes
  import opened ProcessInvariants
  import opened ProcessSteps

  ghost predicate TaskNodes(s: seq<ListHead>) {
    forall i :: 0 <= i < |s| ==> 0 <= s[i].id < NR_TASKS
  }

  ghost function Ids(s: seq<ListHead>): (q: seq<TaskId>)
    requires TaskNodes(s)
    ensures |q| == |s| && forall i :: 0 <= i < |s| ==> q[i] == s[i].id
  {
    seq(|s|, i requires 0 <= i < |s| => s[i].id)
  }

  ghost function AllIds(rings: seq<seq<ListHead>>): (q: Rings)
    requires forall r :: 0 <= r < |rings| ==> TaskNodes(rings[r])
    ensures |q| == |rings| && forall r :: 0 <= r < |rings| ==> q[r] == Ids(rings[r])
  {
    seq(|rings|, r requires 0 <= r < |rings| => Ids(rings[r]))
  }

  // A PCB in zeroed memory, with no call suspended, and one init_freequeue has marked free.
  const ZeroPcb := Pcb(0, StRun, 0, false, 0, -1)
  const BlankPcb := Pcb(-1, StRun, 0, false, 0, -1)

  // The state that goes with a queue, or with none (-1).
  function NewState(dst: int): (st: TaskState) {
    if dst == READY then StReady else if dst == -1 then StRun else StBlocked
  }

  // init_idle and init_task1.
  function MakeIdle(s: Procs): (s': Procs)
    requires Shape(s) && s.queues[FREE] != []
    ensures Shape(s')
  {
    var p := s.queues[FREE][0];
    var t := s.tasks[p].(pid := 0, semDestroyed := false, quantum := 50);
    AllocateDir(SetTask(Dequeue(s, FREE), p, t).(idle := p), p)
  }

  function MakeTask1(s: Procs): (s': Procs)
    requires Shape(s) && s.queues[FREE] != []
    ensures Shape(s')
  {
    var p := s.queues[FREE][0];
    var t := s.tasks[p].(pid := 1, quantum := 50, state := StRun, semDestroyed := false);
    AllocateDir(SetTask(Dequeue(s, FREE), p, t).(current := p), p)
  }

  // Together they turn ten free PCBs, with one directory gone, into the state after boot.
  lemma BootSequence(s: Procs)
    requires Shape(s) && s.tasks == seq(NR_TASKS, _ => BlankPcb) && s.lost == {} && s.nextPid == 2
    requires s.queues[FREE] == [0, 1, 2, 3, 4, 5, 6, 7, 8, 9]
    requires forall r :: 1 <= r < NR_QUEUES ==> s.queues[r] == []
    requires s.sems == seq(NR_SEMS, _ => Sem(0, -1)) && s.dirCounter == [1, 0, 0, 0, 0, 0, 0, 0, 0, 0]
    ensures var s1 := MakeIdle(s);
            && s1.queues[FREE] != []
            && MakeTask1(s1).tasks[1].quantum == 50
            && MakeTask1(s1).(leftTicks := 50) == Boot()
  {
    var s1 := MakeIdle(s);
    FreeDirIs(s.dirCounter, 0, 1);
    assert s1.queues[FREE] == [1, 2, 3, 4, 5, 6, 7, 8, 9];
    assert s1.tasks == s.tasks[0 := Pcb(0, StRun, 50, false, 1, -1)];
    assert s1.dirCounter == [1, 1, 0, 0, 0, 0, 0, 0, 0, 0];
    FreeDirIs(s1.dirCounter, 0, 2);
    var s2 := MakeTask1(s1);
    assert s2.queues == Boot().queues;
    assert s2.tasks == Boot().tasks;
    assert s2.dirCounter == Boot().dirCounter;
  }

  class ProcessTable {
    const task: array<Pcb>
    const node: seq<ListHead>    // task[p].list
    const head: seq<ListHead>    // freequeue, readyqueue, sem_array[n].blocked
    const sem: array<Sem>
    const dirCounter: array<int>
    var current: TaskId
    var idle: TaskId
    var leftTicks: nat
    var globalPid: int
    ghost var lost: set<TaskId>
    ghost var rings: seq<seq<ListHead>>

    ghost predicate Numbered() {
      && task.Length == NR_TASKS && sem.Length == NR_SEMS && dirCounter.Length == NR_TASKS
      && |node| == NR_TASKS && |head| == NR_QUEUES
      && (forall p :: 0 <= p < NR_TASKS ==> node[p].id == p)
      && (forall r :: 0 <= r < NR_QUEUES ==> head[r].id == NR_TASKS + r)
    }

    // rs is a way to share out nodes of tasks over the rings.
    ghost predicate OfTasks(rs: seq<seq<ListHead>>)
      requires Numbered()
    {
      && |rs| == NR_QUEUES
      && (forall r :: 0 <= r < NR_QUEUES ==> TaskNodes(rs[r]))
      && (forall r, i :: 0 <= r < NR_QUEUES && 0 <= i < |rs[r]| ==> rs[r][i] == node[rs[r][i].id])
    }

    ghost predicate Shaped()
      reads `rings
    {
      Numbered() && OfTasks(rings)
    }

    // The heap links the nodes as rs says, and nodes on no ring have null links.
    ghost predicate LinkedAs(rs: seq<seq<ListHead>>)
      requires Numbered() && OfTasks(rs)
      reads node, head
    {
      && Disjoint(AllIds(rs))
      && (forall r :: 0 <= r < NR_QUEUES ==> Ring(head[r], rs[r]))
      && (forall p: TaskId :: !Placed(AllIds(rs), p) ==> node[p].next == null && node[p].prev == null)
    }

    ghost function Queues(): (q: Rings)
      requires Shaped()
      reads `rings
      ensures |q| == NR_QUEUES
    {
      AllIds(rings)
    }

    ghost predicate Linked()
      requires Shaped()
      reads `rings, node, head
    {
      LinkedAs(rings)
    }

    ghost function Abs(): (s: Procs)
      requires Shaped()
      reads this, task, sem, dirCounter
      ensures Shape(s)
    {
      Procs(task[..], Queues(), sem[..], dirCounter[..], current, idle, leftTicks, globalPid, lost)
    }

    ghost predicate Valid()
      reads this, task, sem, dirCounter, node, head
    {
      Shaped() && Linked() && Inv(Abs())
    }

    /* Boot: system.c and sched.c */

    // The statically allocated structures, all zero, then the boot sequence of main.
    constructor ()
      ensures Valid() && Abs() == Boot()
      ensures fresh(task) && fresh(sem) && fresh(dirCounter)
      ensures (forall x :: x in node ==> fresh(x)) && (forall x :: x in head ==> fresh(x))
    {
      var nodes := NewNodes(NR_TASKS, 0);
      var heads := NewNodes(NR_QUEUES, NR_TASKS);
      task := new Pcb[NR_TASKS](_ => ZeroPcb);
      sem := new Sem[NR_SEMS](_ => Sem(0, 0));
      dirCounter := new int[NR_TASKS](_ => 0);
      node := nodes;
      head := heads;
      current, idle, leftTicks, globalPid := 0, 0, 0, 0;
      lost := {};
      rings := seq(NR_QUEUES, _ => []);
      new;
      StartUp();
    }

    static method NewNodes(n: nat, base: int) returns (nodes: seq<ListHead>)
      ensures |nodes| == n && forall p :: 0 <= p < n ==> fresh(nodes[p]) && nodes[p].id == base + p
      ensures forall p :: 0 <= p < n ==> nodes[p].next == null && nodes[p].prev == null
    {
      nodes := [];
      for i := 0 to n
        invariant |nodes| == i && forall p :: 0 <= p < i ==> fresh(nodes[p]) && nodes[p].id == base + p
        invariant forall p :: 0 <= p < i ==> nodes[p].next == null && nodes[p].prev == null
      {
        var x := new ListHead(base + i);
        nodes := nodes + [x];
      }
    }

    // init_mm, init_freequeue, init_queue, init_semaphores, init_idle, init_task1, init_sched
    method StartUp()
      requires Shaped() && lost == {} && forall r :: 0 <= r < NR_QUEUES ==> rings[r] == []
      requires forall p :: 0 <= p < NR_TASKS ==> node[p].next == null && node[p].prev == null
      requires forall p :: 0 <= p < NR_TASKS ==> task[p] == ZeroPcb && dirCounter[p] == 0
      modifies this, task, sem, dirCounter, node, head
      ensures Valid() && Abs() == Boot()
    {
      hide Linked, Inv, Boot, MakeIdle, MakeTask1, OfTasks, AllIds;
      InitStructures();
      BootSequence(Abs());
      InitIdle();
      InitTask1();
      leftTicks := task[1].quantum;
      BootInv();
    }

    // The part of it up to global_PID, which needs no task yet.
    method InitStructures()
      requires Shaped() && lost == {} && forall r :: 0 <= r < NR_QUEUES ==> rings[r] == []
      requires forall p :: 0 <= p < NR_TASKS ==> node[p].next == null && node[p].prev == null
      requires forall p :: 0 <= p < NR_TASKS ==> task[p] == ZeroPcb && dirCounter[p] == 0
      modifies this`rings, this`globalPid, task, sem, dirCounter, node, head
      ensures Shaped() && Linked() && globalPid == 2 && FreeUpTo(NR_TASKS)
      ensures task[..] == seq(NR_TASKS, _ => BlankPcb) && sem[..] == seq(NR_SEMS, _ => Sem(0, -1))
      ensures dirCounter[..] == [1, 0, 0, 0, 0, 0, 0, 0, 0, 0]
    {
      hide Linked, LinkedAs, OfTasks, AllIds, FreeUpTo;
      var ret := AllocateFirst();
      InitQueues();
      FillFreeQueue();
      InitSemaphores();
      globalPid := 2;
    }

    /* Rings do not interfere */

    lemma NodeOnRing(rs: seq<seq<ListHead>>, p: TaskId, r: nat)
      requires Numbered() && OfTasks(rs) && r < NR_QUEUES
      ensures node[p] in rs[r] <==> p in AllIds(rs)[r]
    {
      var q := Ids(rs[r]);
      if node[p] in rs[r] {
        var i :| 0 <= i < |rs[r]| && rs[r][i] == node[p];
        assert q[i] == p;
      }
      if p in q {
        var i :| 0 <= i < |q| && q[i] == p;
        assert rs[r][i] == node[p];
      }
    }

    // The nodes that operations on ring r may rewire.
    ghost function RingNodes(rs: seq<seq<ListHead>>, r: nat): set<ListHead>
      requires Numbered() && OfTasks(rs) && r < NR_QUEUES
    {
      {head[r]} + set x | x in rs[r]
    }

    lemma RingsApart(rs: seq<seq<ListHead>>, r: nat, o: nat)
      requires Numbered() && OfTasks(rs) && Disjoint(AllIds(rs))
      requires r < NR_QUEUES && o < NR_QUEUES && o != r
      ensures RingNodes(rs, r) !! RingNodes(rs, o)
    {
      forall x | x in rs[r] && x in rs[o] ensures false {
        var p: TaskId := x.id;
        NodeOnRing(rs, p, r);
        NodeOnRing(rs, p, o);
      }
    }

    // Every node but those of ring r and that of task p.
    ghost function Others(rs: seq<seq<ListHead>>, r: nat, p: TaskId): set<ListHead>
      requires Numbered() && OfTasks(rs) && r < NR_QUEUES
    {
      (set x | x in node) + (set x | x in head) - RingNodes(rs, r) - {node[p]}
    }

    // Task p is on no ring other than r.
    ghost predicate OnlyOn(rs: seq<seq<ListHead>>, r: nat, p: TaskId)
      requires Numbered() && OfTasks(rs) && r < NR_QUEUES
    {
      Disjoint(AllIds(rs)) && forall o :: 0 <= o < NR_QUEUES && o != r ==> p !in AllIds(rs)[o]
    }

    // All of LinkedAs but ring r and the links of task p, in terms of the other nodes only.
    ghost predicate RestLinked(rs: seq<seq<ListHead>>, r: nat, p: TaskId)
      requires Numbered() && OfTasks(rs) && r < NR_QUEUES && OnlyOn(rs, r, p)
      reads Others(rs, r, p)
    {
      && (forall o :: 0 <= o < NR_QUEUES && o != r ==>
            (RingWithinOthers(rs, r, p, o); Ring(head[o], rs[o])))
      && (forall x: TaskId :: x != p && !Placed(AllIds(rs), x) ==>
            (NodeOnRing(rs, x, r); node[x].next == null && node[x].prev == null))
    }

    lemma RingWithinOthers(rs: seq<seq<ListHead>>, r: nat, p: TaskId, o: nat)
      requires Numbered() && OfTasks(rs) && r < NR_QUEUES && o < NR_QUEUES && o != r
      requires OnlyOn(rs, r, p)
      ensures head[o] in Others(rs, r, p) && forall x :: x in rs[o] ==> x in Others(rs, r, p)
    {
      RingsApart(rs, r, o);
      NodeOnRing(rs, p, o);
      forall x | x in rs[o] ensures x in node && x != node[p] {
        assert x == node[x.id];
      }
    }

    // Putting a rewired ring r back among the others.
    lemma Relink(rs: seq<seq<ListHead>>, r: nat, p: TaskId, ring: seq<ListHead>)
      requires Numbered() && OfTasks(rs) && r < NR_QUEUES && OnlyOn(rs, r, p) && RestLinked(rs, r, p)
      requires OfTasks(rs[r := ring]) && Disjoint(AllIds(rs[r := ring])) && Ring(head[r], ring)
      requires forall x: TaskId :: x != p && !Placed(AllIds(rs[r := ring]), x) ==> !Placed(AllIds(rs), x)
      requires !Placed(AllIds(rs[r := ring]), p) ==> node[p].next == null && node[p].prev == null
      ensures LinkedAs(rs[r := ring])
    {
    }

    // Taking ring r, which may hold p, apart from the others.
    lemma Detach(rs: seq<seq<ListHead>>, r: nat, p: TaskId)
      requires Numbered() && OfTasks(rs) && r < NR_QUEUES && LinkedAs(rs)
      requires !Placed(AllIds(rs), p) || p in AllIds(rs)[r]
      ensures OnlyOn(rs, r, p) && RestLinked(rs, r, p) && Ring(head[r], rs[r])
      ensures node[p] in rs[r] <==> p in AllIds(rs)[r]
      ensures !Placed(AllIds(rs), p) ==> node[p] !in rs[r]
    {
      NodeOnRing(rs, p, r);
    }

    // The heap half of list_add_tail: ring r grows, everything else stays.
    method LinkTail(p: TaskId, r: nat)
      requires Shaped() && Linked() && r < NR_QUEUES && !Placed(Queues(), p)
      modifies node, head
      ensures Ring(head[r], rings[r] + [node[p]])
      ensures OnlyOn(rings, r, p) && RestLinked(rings, r, p)
    {
      hide LinkedAs, Ring, RestLinked, OnlyOn, Placed;
      Detach(rings, r, p);
      ghost var others := Others(rings, r, p);
      assert forall x :: x in others ==> x != node[p] && x != head[r] && x !in rings[r];
      ListAddTail(node[p], head[r], rings[r]);
    }

    // list_add_tail(&task[p].list, queue r)
    method AddTail(p: TaskId, r: nat)
      requires Shaped() && Linked() && r < NR_QUEUES && !Placed(Queues(), p)
      modifies this`rings, node, head
      ensures Shaped() && Linked() && Abs() == Enqueue(old(Abs()), r, p)
    {
      hide LinkedAs, Ring, Placed, Disjoint, RestLinked, OnlyOn;
      ghost var rs: seq<seq<ListHead>> := rings;
      ghost var ring := rs[r] + [node[p]];
      Appended(rs, r, p);
      LinkTail(p, r);
      ghost var others := Others(rs, r, p);
      rings := rs[r := ring];
      Relink(rs, r, p, ring);
    }

    lemma Appended(rs: seq<seq<ListHead>>, r: nat, p: TaskId)
      requires Numbered() && OfTasks(rs) && r < NR_QUEUES
      requires LinkedAs(rs) && !Placed(AllIds(rs), p)
      ensures var rs' := rs[r := rs[r] + [node[p]]];
              && OfTasks(rs') && AllIds(rs') == Append(AllIds(rs), r, p)
              && Disjoint(AllIds(rs')) && Placed(AllIds(rs'), p)
              && forall x: TaskId :: x != p && !Placed(AllIds(rs'), x) ==> !Placed(AllIds(rs), x)
    {
      var rs' := rs[r := rs[r] + [node[p]]];
      hide Ring;
      assert Ids(rs'[r]) == Ids(rs[r]) + [p];
      assert AllIds(rs') == Append(AllIds(rs), r, p);
      AppendDisjoint(AllIds(rs), r, p);
    }

    // The heap half of list_del: ring r loses task p, at place k.
    method UnlinkNode(p: TaskId, ghost r: nat, ghost k: nat)
      requires Shaped() && Linked() && r < NR_QUEUES && k < |rings[r]| && rings[r][k] == node[p]
      modifies node, head
      ensures Ring(head[r], Without(rings[r], k)) && node[p].next == null && node[p].prev == null
      ensures OnlyOn(rings, r, p) && RestLinked(rings, r, p)
    {
      NodeOnRing(rings, p, r);
      hide LinkedAs, Ring, RestLinked, OnlyOn, Placed;
      Detach(rings, r, p);
      ghost var others := Others(rings, r, p);
      assert forall x :: x in others ==> x != node[p] && x != head[r] && x !in rings[r];
      ListDel(node[p], head[r], rings[r], k);
    }

    // list_del(&task[p].list), where p is at place k of ring r
    method Del(p: TaskId, ghost r: nat, ghost k: nat)
      requires Shaped() && Linked() && r < NR_QUEUES && k < |Queues()[r]| && Queues()[r][k] == p
      modifies this`rings, node, head
      ensures Shaped() && Linked() && Abs() == TakeOut(old(Abs()), r, k) && !Placed(Queues(), p)
    {
      hide LinkedAs, Ring, Placed, Disjoint, RestLinked, OnlyOn, Without;
      ghost var rs: seq<seq<ListHead>> := rings;
      NodeAt(rs, r, k);
      Removed(rs, r, k);
      ghost var ring := Without(rs[r], k);
      hide AllIds, Ids;
      UnlinkNode(p, r, k);
      ghost var others := Others(rs, r, p);
      rings := rs[r := ring];
      Relink(rs, r, p, ring);
    }

    // list_del of the first task of a ring
    method DelFirst(p: TaskId, ghost r: nat)
      requires Shaped() && Linked() && r < NR_QUEUES && Queues()[r] != [] && Queues()[r][0] == p
      modifies this`rings, node, head
      ensures Shaped() && Linked() && Abs() == Dequeue(old(Abs()), r)
    {
      hide Linked, Placed, AllIds, OfTasks;
      RemoveFirst(Queues(), r);
      Del(p, r, 0);
    }

    lemma NodeAt(rs: seq<seq<ListHead>>, r: nat, k: nat)
      requires Numbered() && OfTasks(rs) && r < NR_QUEUES && k < |AllIds(rs)[r]|
      ensures k < |rs[r]| && rs[r][k] == node[AllIds(rs)[r][k]]
    {
      assert |AllIds(rs)[r]| == |rs[r]|;
    }

    lemma Removed(rs: seq<seq<ListHead>>, r: nat, k: nat)
      requires Numbered() && OfTasks(rs) && r < NR_QUEUES && LinkedAs(rs) && k < |rs[r]|
      ensures var rs' := rs[r := Without(rs[r], k)]; var p := AllIds(rs)[r][k];
              && OfTasks(rs') && AllIds(rs') == RemoveAt(AllIds(rs), r, k) && Disjoint(AllIds(rs'))
              && !Placed(AllIds(rs'), p)
              && forall x: TaskId :: x != p && !Placed(AllIds(rs'), x) ==> !Placed(AllIds(rs), x)
    {
      var rs' := rs[r := Without(rs[r], k)];
      hide Ring;
      assert Ids(rs'[r]) == Ids(rs[r])[..k] + Ids(rs[r])[k + 1..];
      assert AllIds(rs') == RemoveAt(AllIds(rs), r, k);
      RemoveDisjoint(AllIds(rs), r, k);
    }

    // list_head_to_task_struct(list_first(queue r))
    method First(r: nat) returns (p: TaskId)
      requires Shaped() && Linked() && r < NR_QUEUES && Queues()[r] != []
      ensures p == Queues()[r][0]
    {
      assert Ring(head[r], rings[r]);
      assert rings[r][0].id == Queues()[r][0];
      var h: ListHead := head[r].next;
      p := h.id;
    }

    method IsEmpty(r: nat) returns (b: bool)
      requires Shaped() && Linked() && r < NR_QUEUES
      ensures b <==> Queues()[r] == []
    {
      b := ListEmpty(head[r], rings[r]);
      assert |Queues()[r]| == |rings[r]|;
    }

    /* sched.c */

    // update_process_state_rr; dst is -1 for NULL. A task that is not running is unlinked from
    // its ring: r, where it is at place k.
    method UpdateProcessState(t: TaskId, dst: int, ghost r: nat, ghost k: nat)
      requires Shaped() && Linked() && -1 <= dst < NR_QUEUES && r < NR_QUEUES
      requires if task[t].state == StRun then !Placed(Queues(), t)
               else k < |Queues()[r]| && Queues()[r][k] == t
      modifies this`rings, task, node, head
      ensures Shaped() && Linked()
      ensures var s := old(Abs());
              var s1 := if s.tasks[t].state == StRun then s else TakeOut(s, r, k);
              var s2 := if dst == -1 then s1 else Enqueue(s1, dst, t);
              Abs() == SetTask(s2, t, s.tasks[t].(state := NewState(dst)))
    {
      hide Linked, Placed, AllIds, OfTasks;
      ghost var s := Abs();
      if task[t].state != StRun { Del(t, r, k); }
      if dst != -1 { AddTail(t, dst); }
      if dst == READY {
        task[t] := task[t].(state := StReady);
      } else if dst == -1 {
        task[t] := task[t].(state := StRun);
      } else {
        task[t] := task[t].(state := StBlocked);
      }
      assert task[..] == s.tasks[t := s.tasks[t].(state := NewState(dst))];
    }

    // sched_next_rr; task_switch is the assignment to current.
    method SchedNextRr()
      requires Shaped() && Linked()
      requires forall p: TaskId :: p in Queues()[READY] ==> task[p].state == StReady
      modifies this`rings, this`current, this`leftTicks, task, node, head
      ensures Shaped() && Linked() && Abs() == SchedNext(old(Abs()))
    {
      hide Linked, Disjoint, Placed, AllIds, Numbered, OfTasks;
      var empty := IsEmpty(READY);
      if empty {
        current := idle;
        return;
      }
      var next := First(READY);
      assert next in Queues()[READY];
      RemoveFirst(Queues(), READY);
      UpdateProcessState(next, -1, READY, 0);
      leftTicks := task[next].quantum;
      current := next;
    }

    // What schedule does once needs_sched_rr has said yes.
    method Preempt()
      requires Shaped() && Linked() && RingInv(Abs())
      modifies this`rings, this`current, this`leftTicks, task, node, head
      ensures Shaped() && Linked() && Abs() == Rotate(old(Abs()))
    {
      hide Linked, RingInv, Placed, Disjoint, AllIds, Numbered, OfTasks, SchedNext;
      RunningState(Abs());
      ReadyStates(Abs());
      ParkedReady(Abs());
      if current != idle {
        UpdateProcessState(current, READY, 0, 0);
        assert Abs() == Park(old(Abs()), READY, StReady);
      }
      SchedNextRr();
    }

    // schedule, with update_sched_data_rr and needs_sched_rr
    method Schedule()
      requires Valid()
      modifies this`rings, this`current, this`leftTicks, task, node, head
      ensures Valid() && Abs() == Tick(old(Abs()))
    {
      hide Linked, Inv, RingInv, FlagInv, PidInv, DirInv, AllIds, Numbered, OfTasks, Rotate;
      TickInv(Abs());
      LeftTicksFree(Abs(), 0);
      leftTicks := UInt32(leftTicks - 1);
      if leftTicks == 0 {
        assert Abs() == old(Abs()).(leftTicks := 0);
        Preempt();
      }
    }

    /* The parts of the boot sequence */

    // allocate_DIR(&task[0].task) in init_mm, before there are any queues
    method AllocateFirst() returns (ret: int)
      requires Numbered() && forall d :: 0 <= d < NR_TASKS ==> dirCounter[d] == 0
      modifies dirCounter
      ensures dirCounter[..] == [1, 0, 0, 0, 0, 0, 0, 0, 0, 0] && ret == 1
    {
      dirCounter[0] := 1;
      ret := 1;
    }

    method InitQueues()
      requires Shaped() && forall r :: 0 <= r < NR_QUEUES ==> rings[r] == []
      requires forall p :: 0 <= p < NR_TASKS ==> node[p].next == null && node[p].prev == null
      modifies head
      ensures Shaped() && Linked()
    {
      for i := 0 to NR_QUEUES
        invariant forall p :: 0 <= p < NR_TASKS ==> node[p].next == null && node[p].prev == null
        invariant forall r :: 0 <= r < i ==> Ring(head[r], [])
      {
        InitListHead(head[i]);
      }
    }

    // The free queue after k turns of the loop of init_freequeue.
    ghost predicate FreeUpTo(k: nat)
      requires Shaped() && k <= NR_TASKS
      reads `rings
    {
      && Queues()[FREE] == seq(k, i requires 0 <= i < k => i)
      && (k == NR_TASKS ==> Queues()[FREE] == [0, 1, 2, 3, 4, 5, 6, 7, 8, 9])
      && (forall r :: 1 <= r < NR_QUEUES ==> Queues()[r] == [])
    }

    method FillFreeQueue()
      requires Shaped() && Linked() && forall r :: 0 <= r < NR_QUEUES ==> rings[r] == []
      requires forall p :: 0 <= p < NR_TASKS ==> task[p] == ZeroPcb
      modifies this`rings, task, node, head
      ensures Shaped() && Linked() && FreeUpTo(NR_TASKS) && task[..] == seq(NR_TASKS, _ => BlankPcb)
    {
      hide LinkedAs;
      for i := 0 to NR_TASKS
        invariant Shaped() && Linked() && FreeUpTo(i)
        invariant forall p :: 0 <= p < NR_TASKS ==> task[p] == if p < i then BlankPcb else ZeroPcb
      {
        task[i] := task[i].(pid := -1);
        assert !Placed(Queues(), i) by {
          assert i !in Queues()[FREE];
        }
        AddTail(i, FREE);
      }
    }

    method InitSemaphores()
      requires Numbered()
      modifies sem
      ensures sem[..] == seq(NR_SEMS, _ => Sem(0, -1))
    {
      for i := 0 to NR_SEMS
        invariant forall n :: 0 <= n < i ==> sem[n] == Sem(0, -1)
      {
        sem[i] := Sem(0, -1);
      }
    }

    method InitIdle()
      requires Shaped() && Linked() && Queues()[FREE] != []
      modifies this`rings, this`idle, task, dirCounter, node, head
      ensures Shaped() && Linked() && Abs() == MakeIdle(old(Abs()))
    {
      hide LinkedAs, Placed, Disjoint, Numbered, OfTasks, AllIds, AllocateDir;
      ghost var s := Abs();
      idle := First(FREE);
      DelFirst(idle, FREE);
      task[idle] := task[idle].(pid := 0, semDestroyed := false, quantum := 50);
      assert task[..] == s.tasks[idle := s.tasks[idle].(pid := 0, semDestroyed := false, quantum := 50)];
      var ret := AllocateDirectory(idle);
    }

    method InitTask1()
      requires Shaped() && Linked() && Queues()[FREE] != []
      modifies this`rings, this`current, task, dirCounter, node, head
      ensures Shaped() && Linked() && Abs() == MakeTask1(old(Abs()))
    {
      hide LinkedAs, Placed, Disjoint, Numbered, OfTasks, AllIds, AllocateDir;
      ghost var s := Abs();
      current := First(FREE);
      DelFirst(current, FREE);
      task[current] := task[current].(pid := 1, quantum := 50, state := StRun, semDestroyed := false);
      assert task[..]
          == s.tasks[current := s.tasks[current].(pid := 1, quantum := 50, state := StRun, semDestroyed := false)];
      var ret := AllocateDirectory(current);
    }

    /* Semaphores: sys.c */

    // INIT_LIST_HEAD of a ring that is empty already; p is any task on no ring.
    method InitQueue(r: nat, ghost p: TaskId)
      requires Shaped() && Linked() && r < NR_QUEUES && Queues()[r] == [] && !Placed(Queues(), p)
      modifies head
      ensures Shaped() && Linked() && Abs() == old(Abs())
    {
      assert |rings[r]| == |Queues()[r]|;
      NodeOnRing(rings, p, r);
      assert OnlyOn(rings, r, p) && RestLinked(rings, r, p);
      assert node[p].next == null && node[p].prev == null && node[p] != head[r];
      assert rings[r := []] == rings;
      hide LinkedAs, Ring, RestLinked, OnlyOn, Placed, Disjoint;
      InitListHead(head[r]);
      Relink(rings, r, p, []);
    }

    method SysSemInit(n: int, value: nat) returns (outcome: Outcome)
      requires Valid() && current != idle && value < TWO_32
      modifies sem, head
      ensures Valid() && (Abs(), outcome) == SemInit(old(Abs()), n, value)
    {
      hide Linked, Inv, RingInv, Placed, Disjoint, AllIds, Numbered, OfTasks;
      SemInitInv(Abs(), n, value);
      InvParts(Abs());
      RunningState(Abs());
      if n < 0 || n >= NR_SEMS { return Returns(-EINVAL); }
      if sem[n].owner != -1 { return Returns(-EBUSY); }
      ghost var s := Abs();
      assert s.queues[SemQueue(n)] == [] by {
        assert SemInit(s, n, value).0.queues[SemQueue(n)] == [];
      }
      sem[n] := sem[n].(counter := Int32(value));
      InitQueue(SemQueue(n), current);
      sem[n] := sem[n].(owner := task[current].pid);
      assert sem[..] == s.sems[n := Sem(Int32(value), Cur(s).pid)];
      outcome := Returns(0);
    }

    // The end of sem_wait.
    method ReturnFromWait() returns (outcome: Outcome)
      requires Valid()
      modifies task
      ensures Valid() && (Abs(), outcome) == FinishWait(old(Abs()))
    {
      hide Linked, Inv, AllIds, Numbered, OfTasks;
      ghost var s := Abs();
      FinishWaitInv(s);
      task[current] := task[current].(waiting := -1);
      if task[current].semDestroyed {
        task[current] := task[current].(semDestroyed := false);
        outcome := Returns(-EINVAL);
      } else {
        outcome := Returns(0);
      }
      assert task[..] == s.tasks[s.current := Cur(s).(waiting := -1, semDestroyed := false)];
    }

    // The branch of sem_wait that blocks.
    method BlockOn(n: nat)
      requires Valid() && current != idle && task[current].waiting < 0
      requires n < NR_SEMS && sem[n].owner != -1
      modifies this`rings, this`current, this`leftTicks, task, node, head
      ensures Valid() && Abs() == Block(old(Abs()), n)
    {
      hide Linked, Inv, RingInv, Placed, Disjoint, AllIds, Numbered, OfTasks, SchedNext;
      ghost var s := Abs();
      BlockInv(s, n);
      InvParts(s);
      RunningState(s);
      ReadyStates(s);
      task[current] := task[current].(state := StBlocked, waiting := n);
      AddTail(current, SemQueue(n));
      assert Abs() == Park(SetTask(s, s.current, Cur(s).(waiting := n)), SemQueue(n), StBlocked);
      SchedNextRr();
    }

    method SysSemWait(n: int) returns (outcome: Outcome)
      requires Valid() && current != idle && task[current].waiting < 0
      modifies this`rings, this`current, this`leftTicks, task, sem, node, head
      ensures Valid() && (Abs(), outcome) == SemWait(old(Abs()), n)
    {
      hide Linked, Inv, AllIds, Numbered, OfTasks, FinishWait, Block;
      if n < 0 || n >= NR_SEMS { return Returns(-EINVAL); }
      if sem[n].owner == -1 { return Returns(-EINVAL); }
      if sem[n].counter <= 0 {
        BlockOn(n);
        outcome := Suspended;
      } else {
        TakeUnitInv(Abs(), n);
        sem[n] := sem[n].(counter := sem[n].counter - 1);
        outcome := ReturnFromWait();
      }
    }

    // list_del of the first task of a wait queue and list_add_tail to the ready queue.
    method WakeFirst(n: nat, mark: bool)
      requires Valid() && current != idle && n < NR_SEMS && Queues()[SemQueue(n)] != []
      modifies this`rings, task, node, head
      ensures Valid() && Abs() == Wake(old(Abs()), n, mark)
    {
      hide Linked, Inv, Placed, Disjoint, AllIds, Numbered, OfTasks;
      ghost var s := Abs();
      WakeInv(s, n, mark);
      DequeuedUnplaced(s, SemQueue(n));
      var p := First(SemQueue(n));
      DelFirst(p, SemQueue(n));
      if mark { task[p] := task[p].(semDestroyed := true); }
      task[p] := task[p].(state := StReady);
      assert task[..] == s.tasks[p := s.tasks[p].(state := StReady, semDestroyed := mark || s.tasks[p].semDestroyed)];
      AddTail(p, READY);
    }

    method SysSemSignal(n: int) returns (outcome: Outcome)
      requires Valid() && current != idle
      modifies this`rings, task, sem, node, head
      ensures Valid() && (Abs(), outcome) == SemSignal(old(Abs()), n)
    {
      hide Linked, Inv, AllIds, Numbered, OfTasks;
      SemSignalInv(Abs(), n);
      if n < 0 || n >= NR_SEMS { return Returns(-EINVAL); }
      if sem[n].owner == -1 { return Returns(-EINVAL); }
      var empty := IsEmpty(SemQueue(n));
      if empty {
        sem[n] := sem[n].(counter := Int32(sem[n].counter + 1));
      } else {
        WakeFirst(n, false);
      }
      outcome := Returns(0);
    }

    // The loop of sys_sem_destroy.
    method DrainQueue(n: nat)
      requires Valid() && current != idle && n < NR_SEMS
      modifies this`rings, task, node, head
      ensures Valid() && Abs() == Drain(old(Abs()), n)
    {
      hide Linked, Inv, AllIds, Numbered, OfTasks, Wake;
      ghost var s := Abs();
      var empty := IsEmpty(SemQueue(n));
      while !empty
        invariant Valid() && empty == (Queues()[SemQueue(n)] == [])
        invariant current == s.current && idle == s.idle
        invariant Drain(Abs(), n) == Drain(s, n)
        decreases |Queues()[SemQueue(n)]|
      {
        EvictIsWake(Abs(), n);
        WakeFirst(n, true);
        empty := IsEmpty(SemQueue(n));
      }
    }

    method SysSemDestroy(n: int) returns (outcome: Outcome)
      requires Valid() && current != idle
      modifies this`rings, task, sem, node, head
      ensures Valid() && (Abs(), outcome) == SemDestroy(old(Abs()), n)
    {
      hide Linked, Inv, AllIds, Numbered, OfTasks, Drain;
      SemDestroyInv(Abs(), n);
      if n < 0 || n >= NR_SEMS || sem[n].owner == -1 { return Returns(-EINVAL); }
      if sem[n].owner != task[current].pid { return Returns(-EPERM); }
      DrainQueue(n);
      sem[n] := sem[n].(owner := -1);
      outcome := Returns(0);
    }

    /* Creation */

    // allocate_DIR
    method AllocateDirectory(p: TaskId) returns (ret: int)
      requires Shaped() && Linked()
      modifies task, dirCounter
      ensures Shaped() && Linked() && Abs() == AllocateDir(old(Abs()), p)
      ensures ret == 1
    {
      hide Linked, AllIds, Numbered, OfTasks;
      ghost var counter := dirCounter[..];
      for i := 0 to NR_TASKS
        invariant dirCounter[..] == counter && Abs() == old(Abs())
        invariant FreeDir(counter, 0) == FreeDir(counter, i)
      {
        if dirCounter[i] == 0 {
          dirCounter[i] := 1;
          task[p] := task[p].(dir := i);
          return 1;
        }
      }
      ret := 1;
    }

    // The child's list links are copied with the rest of the father's PCB; both are null.
    method CopyLinks(p: TaskId)
      requires Shaped() && Linked() && !Placed(Queues(), p) && !Placed(Queues(), current)
      modifies node
      ensures Shaped() && Linked() && Abs() == old(Abs())
    {
      NodeOnRing(rings, p, FREE);
      assert OnlyOn(rings, FREE, p) && RestLinked(rings, FREE, p) && Ring(head[FREE], rings[FREE]);
      assert rings[FREE := rings[FREE]] == rings;
      hide LinkedAs, RestLinked, OnlyOn, Disjoint, Ring;
      assert node[current].next == null && node[current].prev == null;
      node[p].next := node[current].next;
      node[p].prev := node[current].prev;
      Relink(rings, FREE, p, rings[FREE]);
    }

    // list_first, list_del and copy_data of the caller's task_union
    method TakeFreePcb() returns (child: TaskId)
      requires Valid() && current != idle && Queues()[FREE] != []
      modifies this`rings, task, node, head
      ensures Shaped() && Linked() && Abs() == TakePcb(old(Abs()))
      ensures child == old(Queues()[FREE][0]) && !Placed(Queues(), child)
    {
      hide Linked, Inv, RingInv, Placed, Disjoint, AllIds, Numbered, OfTasks;
      ghost var s := Abs();
      InvParts(s);
      RunningState(s);
      DequeuedUnplaced(s, FREE);
      child := First(FREE);
      DelFirst(child, FREE);
      StillUnplaced(s, FREE, current);
      task[child] := task[current];
      CopyLinks(child);
    }

    // global_PID++, list_add_tail to the ready queue, ST_READY
    method LaunchTask(p: TaskId)
      requires Shaped() && Linked() && !Placed(Queues(), p)
      modifies this`rings, this`globalPid, task, node, head
      ensures Shaped() && Linked() && Abs() == Launch(old(Abs()), p)
    {
      hide Linked, Placed, Disjoint, AllIds, Numbered, OfTasks;
      ghost var s := Abs();
      var pid := globalPid;
      globalPid := globalPid + 1;
      task[p] := task[p].(pid := pid);
      AddTail(p, READY);
      task[p] := task[p].(state := StReady);
      assert task[..] == s.tasks[p := s.tasks[p].(pid := s.nextPid, state := StReady)];
    }

    // sys_fork up to allocate_DIR
    method ForkBegin() returns (child: TaskId)
      requires Valid() && current != idle && Queues()[FREE] != []
      modifies this`rings, task, dirCounter, node, head
      ensures Shaped() && Linked() && Abs() == PreparedFork(old(Abs()))
      ensures child == old(Queues()[FREE][0]) && !Placed(Queues(), child)
    {
      hide Linked, Inv, AllIds, Numbered, OfTasks, Placed;
      child := TakeFreePcb();
      var ret := AllocateDirectory(child);
    }

    // sys_fork after the address space is complete. Only if there was a directory for the child
    // are the books in order afterwards.
    method ForkFinish(child: TaskId, ghost s: Procs) returns (outcome: Outcome)
      requires Shaped() && Linked() && Shape(s) && s.queues[FREE] != []
      requires Abs() == PreparedFork(s) && child == s.queues[FREE][0] && !Placed(Queues(), child)
      modifies this`rings, this`globalPid, task, node, head
      ensures Shaped() && Linked() && (Abs(), outcome) == Fork(s, true)
      ensures Inv(s) && Enabled(s, DoFork(true)) ==> Valid()
    {
      hide Linked, Inv, AllIds, Numbered, OfTasks, Launch, Enabled;
      outcome := Returns(globalPid);
      LaunchTask(child);
      if Inv(s) && Enabled(s, DoFork(true)) { ForkInv(s, true); }
    }

    // The error return of sys_fork: the PCB and the directory are not given back.
    method ForkFail(child: TaskId, ghost s: Procs) returns (outcome: Outcome)
      requires Shaped() && Linked() && Shape(s) && s.queues[FREE] != []
      requires Abs() == PreparedFork(s) && child == s.queues[FREE][0]
      modifies this`lost
      ensures Shaped() && Linked() && (Abs(), outcome) == Fork(s, false)
      ensures Inv(s) && Enabled(s, DoFork(false)) ==> Valid()
    {
      hide Linked, Inv, AllIds, Numbered, OfTasks, Enabled;
      lost := lost + {child};
      outcome := Returns(-ENOMEM);
      if Inv(s) && Enabled(s, DoFork(false)) { ForkInv(s, false); }
    }

    method SysClone(function_: int, stack: int) returns (outcome: Outcome)
      requires Valid() && current != idle && task[current].waiting < 0
      modifies this`rings, this`globalPid, task, dirCounter, node, head
      ensures Valid() && (Abs(), outcome) == Clone(old(Abs()), function_, stack)
    {
      hide Linked, Inv, AllIds, Numbered, OfTasks, Placed, Launch;
      CloneInv(Abs(), function_, stack);
      var empty := IsEmpty(FREE);
      if empty { return Returns(-EAGAIN); }
      if function_ < L_USER_START || function_ >= (PAG_LOG_INIT_DATA + NUM_PAG_DATA) * PAGE_SIZE {
        return Returns(-EINVAL);
      }
      if stack < PAG_LOG_INIT_DATA * PAGE_SIZE || stack >= (PAG_LOG_INIT_DATA + NUM_PAG_DATA) * PAGE_SIZE {
        return Returns(-EINVAL);
      }
      outcome := CloneThread();
    }

    // sys_clone once its checks have passed
    method CloneThread() returns (outcome: Outcome)
      requires Valid() && current != idle && Queues()[FREE] != []
      modifies this`rings, this`globalPid, task, dirCounter, node, head
      ensures Shaped() && Linked()
      ensures forall f, st :: CloneArgsOk(f, st) ==> (Abs(), outcome) == Clone(old(Abs()), f, st)
    {
      hide Linked, Inv, RingInv, AllIds, Numbered, OfTasks, Placed, Launch;
      ghost var s := Abs();
      InvParts(s);
      CurrentStays(s);
      var thread := TakeFreePcb();
      dirCounter[task[current].dir] := dirCounter[task[current].dir] + 1;
      outcome := Returns(globalPid);
      LaunchTask(thread);
    }

    /* Termination */

    // sys_exit up to the directory count; `last` tells that the pages are to be freed.
    method ExitBegin() returns (d: TaskId, last: bool)
      requires Valid() && current != idle
      modifies this`rings, task, sem, dirCounter, node, head
      ensures Shaped() && Linked() && Abs() == LeaveDir(old(Abs()))
      ensures d == old(task[current].dir) && last == (dirCounter[d] == 0)
    {
      hide Linked, Inv, AllIds, Numbered, OfTasks, SemDestroy;
      ghost var s := Abs();
      for i := 0 to NR_SEMS
        invariant Valid() && Abs() == CloseOwned(s, i) && ClosedBelow(s, Abs(), i)
      {
        CloseOwnedInv(s, i + 1);
        if sem[i].owner == task[current].pid { var outcome := SysSemDestroy(i); }
      }
      d := task[current].dir;
      dirCounter[d] := dirCounter[d] - 1;
      last := dirCounter[d] == 0;
    }

    // The rest of sys_exit: the PCB is freed and another task dispatched.
    method ExitFinish(ghost s: Procs)
      requires Shaped() && Linked() && Shape(s) && Inv(s) && s.current != s.idle && Abs() == LeaveDir(s)
      modifies this`rings, this`current, this`leftTicks, task, node, head
      ensures Valid() && Abs() == Exit(s)
    {
      hide Linked, Inv, AllIds, Numbered, OfTasks, Placed, LeaveDir, SchedNext;
      ExitInv(s);
      Leaving(s);
      task[current] := task[current].(pid := -1);
      AddTail(current, FREE);
      assert Abs() == Freed(s);
      SchedNextRr();
    }

    // One step that is neither a fork nor an exit.
    method Deliver(e: Event) returns (outcome: Outcome)
      requires Valid() && Enabled(Abs(), e) && !e.DoFork? && !e.DoExit?
      modifies this, task, sem, dirCounter, node, head
      ensures Valid() && (Abs(), outcome) == Step(old(Abs()), e)
    {
      hide Linked, Inv, AllIds, Numbered, OfTasks, Tick, SemInit, SemWait, FinishWait, SemSignal, SemDestroy, Clone;
      match e
      case ClockTick =>
        Schedule();
        outcome := Suspended;
      case Init(n, v) => outcome := SysSemInit(n, v);
      case Wait(n) => outcome := SysSemWait(n);
      case Resume => outcome := ReturnFromWait();
      case Signal(n) => outcome := SysSemSignal(n);
      case Destroy(n) => outcome := SysSemDestroy(n);
      case DoClone(f, st) => outcome := SysClone(f, st);
    }
  }

  // The running task stays on no ring when another leaves one.
  lemma StillUnplaced(s: Procs, r: nat, p: TaskId)
    requires Shape(s) && Inv(s) && r < NR_QUEUES && s.queues[r] != [] && !Placed(s.queues, p)
    ensures !Placed(Dequeue(s, r).queues, p)
  {
    PopDisjoint(s.queues, r);
  }

  lemma CurrentStays(s: Procs)
    requires Shape(s) && Inv(s) && s.current != s.idle && s.queues[FREE] != []
    ensures Cur(TakePcb(s)) == Cur(s)
  {
    TakePcbRing(s);
  }

  lemma Leaving(s: Procs)
    requires Shape(s) && Inv(s) && s.current != s.idle
    ensures var s1 := LeaveDir(s);
            && !Placed(s1.queues, s1.current)
            && (forall p: TaskId :: p in Freed(s).queues[READY] ==> Freed(s).tasks[p].state == StReady)
  {
    LeaveDirRing(s);
    FreedRing(s);
    assert s.current in OffRings(s);
  }

  lemma InvParts(s: Procs)
    requires Shape(s) && Inv(s)
    ensures RingInv(s) && FlagInv(s) && SchedInv(s) && PidInv(s) && DirInv(s)
  {
  }

  lemma DequeuedUnplaced(s: Procs, r: nat)
    requires Shape(s) && Inv(s) && r < NR_QUEUES && s.queues[r] != []
    ensures !Placed(Dequeue(s, r).queues, s.queues[r][0])
  {
    PopDisjoint(s.queues, r);
  }

  lemma EvictIsWake(s: Procs, n: nat)
    requires Shape(s) && n < NR_SEMS && s.queues[SemQueue(n)] != []
    ensures Evict(s, n) == Wake(s, n, true) && Drain(s, n) == Drain(Wake(s, n, true), n)
    ensures |Wake(s, n, true).queues[SemQueue(n)]| == |s.queues[SemQueue(n)]| - 1
  {
  }

  lemma RunningState(s: Procs)
    requires Shape(s) && RingInv(s)
    ensures Cur(s).state == StRun && !Placed(s.queues, s.current)
  {
    assert s.current in OffRings(s);
  }

  lemma ReadyStates(s: Procs)
    requires Shape(s) && RingInv(s)
    ensures forall p: TaskId :: p in s.queues[READY] ==> s.tasks[p].state == StReady
  {
  }

  lemma ParkedReady(s: Procs)
    requires Shape(s) && forall p: TaskId :: p in s.queues[READY] ==> s.tasks[p].state == StReady
    ensures var s' := Park(s, READY, StReady);
            forall p: TaskId :: p in s'.queues[READY] ==> s'.tasks[p].state == StReady
  {
  }
}
