// What forks cost for good: the frames of the heap pages given to children never come back.
module Leaks {
  import opened Layout
  import opened Processes
  import opened ProcessInvariants
  import opened Frames
  import opened AddressSpaces
  import opened MemoryInvariants
  import opened ForkLaws
  import opened Kernel
  import opened Runs
  import opened Accounting

  /* One frame */

  // Frame f is at page p of directory d, which is sound, or orphaned.
  ghost predicate Kept(k: Kernel, d: TaskId, p: PageNo, f: FrameNo)
    requires KShape(k)
  {
    Orphan(k.mem, SaneDirs(k.procs), f) || (d in SaneDirs(k.procs) && k.mem.tables[d][p] == Entry(true, f))
  }

  lemma KeptUsed(k: Kernel, d: TaskId, p: PageNo, f: FrameNo)
    requires KShape(k) && KInv(k) && p >= PAG_LOG_INIT_DATA && Kept(k, d, p, f)
    ensures f >= FIRST_FRAME && k.mem.used[f]
  {
    hide Inv, LiveDirs, SaneDirs;
    if !Orphan(k.mem, SaneDirs(k.procs), f) {
      assert k.mem.tables[d][p] != ABSENT && Owned(k.mem, k.mem.tables[d][p]);
    }
  }

  // A fork that takes the slot of directory d maps the child over page p, orphaning the frame, or
  // leaves the page.
  lemma SlotTaken(k: Kernel, d: TaskId, p: PageNo, f: FrameNo)
    requires KShape(k) && KInv(k) && KEnabled(k, SysFork) && Takes(k, SysFork, d)
    requires p >= PAG_LOG_INIT_DATA && d in SaneDirs(k.procs) && k.mem.tables[d][p] == Entry(true, f)
    ensures Kept(KFork(k).0, d, p, f)
  {
    hide Inv, MemInv, LiveDirs, SaneDirs, AddressSpaces.Fork, Processes.Fork, Orphan, FreeDir;
    var s := k.procs;
    var ok := AddressSpaces.Fork(k.mem, Cur(s).dir, d).1;
    CurrentDirLive(s);
    PickedDir(s);
    OrphansExactly(k, SysFork, f);
    if ok && p >= Pages(k.mem.breaks[Cur(s).dir]) {
      ForkDirs(s, ok);
      hide Covered;
      ForkedIs(k.mem, Cur(s).dir, d);
    } else {
      assert Overrides(k, SysFork, d, p);
      assert Drops(k, SysFork, f);
    }
  }

  lemma StepKept(k: Kernel, e: KEvent, d: TaskId, p: PageNo, f: FrameNo)
    requires KShape(k) && KInv(k) && OneHeap(k) && KEnabled(k, e) && d != 2 && p >= PAG_LOG_INIT_HEAP
    requires Kept(k, d, p, f)
    ensures Kept(KStep(k, e).0, d, p, f)
  {
    hide KInv, OneHeap, KEnabled, KStep, SaneDirs, Orphan, Drops, Takes;
    OrphansExactly(k, e, f);
    if !Orphan(k.mem, SaneDirs(k.procs), f) {
      if Takes(k, e, d) {
        TakesFork(k, e, d);
        SlotTaken(k, d, p, f);
      } else {
        StepSameHeap(k, e, d);
      }
    }
  }

  lemma TakesFork(k: Kernel, e: KEvent, d: TaskId)
    requires KShape(k) && KEnabled(k, e) && Takes(k, e, d)
    ensures e == SysFork && KStep(k, e) == KFork(k)
  {
  }

  // The frame of a heap page that a fork (step i) gives to a child is in use in every later state
  // of the run: at that page of that directory, or orphaned.
  lemma {:induction false} HeapFrameStays(states: seq<Kernel>, evs: seq<KEvent>, i: nat, j: nat,
                                          d: TaskId, page: PageNo)
    requires KRun(states, evs) && i < j <= |evs| && Gives(states[i], evs[i], d)
    requires PAG_LOG_INIT_HEAP <= page < Pages(states[i].mem.breaks[Cur(states[i].procs).dir])
    ensures var f := states[i + 1].mem.tables[d][page].frame;
            && Kept(states[j], d, page, f) && f >= FIRST_FRAME && states[j].mem.used[f]
    decreases j
  {
    hide KInv, OneHeap, KEnabled, KStep, KNext, Gives, Kept;
    var f := states[i + 1].mem.tables[d][page].frame;
    RunStep(states, evs, j - 1);
    RunStep(states, evs, i);
    GivenKept(states[i], evs[i], states[i + 1], d, page);
    if j > i + 1 {
      HeapFrameStays(states, evs, i, j - 1, d, page);
      NextKept(states[j - 1], evs[j - 1], states[j - 1 + 1], d, page, f);
    }
    KeptUsed(states[j], d, page, f);
  }

  lemma NextKept(k: Kernel, e: KEvent, k': Kernel, d: TaskId, p: PageNo, f: FrameNo)
    requires KShape(k) && KInv(k) && OneHeap(k) && KShape(k') && KNext(k, e, k') && d != 2
    requires p >= PAG_LOG_INIT_HEAP && Kept(k, d, p, f)
    ensures Kept(k', d, p, f)
  {
    hide KInv, OneHeap, KEnabled, KStep, Kept;
    StepKept(k, e, d, p, f);
  }

  lemma GivenKept(k: Kernel, e: KEvent, k': Kernel, d: TaskId, page: PageNo)
    requires KShape(k) && KInv(k) && OneHeap(k) && KShape(k') && KNext(k, e, k') && Gives(k, e, d)
    requires PAG_LOG_INIT_HEAP <= page < Pages(k.mem.breaks[Cur(k.procs).dir])
    ensures d != 2 && Kept(k', d, page, k'.mem.tables[d][page].frame)
  {
    ForkGivesHeap(k, e, k', d);
    hide KInv, OneHeap, KEnabled, KStep, SaneDirs, Orphan, Gives;
  }

  /* All of them */

  // The frames of the heap pages a step gives to a child.
  ghost function GivenBy(k: Kernel, e: KEvent, k': Kernel): (fs: seq<FrameNo>)
    requires KShape(k) && KShape(k') && KNext(k, e, k')
  {
    if Gives(k, e, ChildDir(k.procs)) then HeapFrames(k, k'.mem.tables[ChildDir(k.procs)]) else []
  }

  // The frames a table has at the heap pages of the caller.
  function HeapFrames(k: Kernel, t: Table): (fs: seq<FrameNo>)
    requires KShape(k)
  {
    var hi := Pages(k.mem.breaks[Cur(k.procs).dir]);
    if PAG_LOG_INIT_HEAP <= hi <= TOTAL_PAGES then FramesOf(t, PAG_LOG_INIT_HEAP, hi) else []
  }

  ghost function Given(states: seq<Kernel>, evs: seq<KEvent>, j: nat): (fs: seq<FrameNo>)
    requires KRun(states, evs) && j <= |evs|
  {
    if j == 0 then []
    else
      assert KNext(states[j - 1], evs[j - 1], states[j - 1 + 1]);
      Given(states, evs, j - 1) + GivenBy(states[j - 1], evs[j - 1], states[j])
  }

  // How many heap pages the forks among the first j steps have given to children.
  ghost function PagesGiven(states: seq<Kernel>, evs: seq<KEvent>, j: nat): (n: nat)
    requires KRun(states, evs) && j <= |evs|
  {
    if j == 0 then 0
    else
      var k := states[j - 1];
      assert KNext(k, evs[j - 1], states[j - 1 + 1]);
      PagesGiven(states, evs, j - 1)
      + if Gives(k, evs[j - 1], ChildDir(k.procs)) then HeapPages(k) else 0
  }

  // The heap pages of the caller.
  function HeapPages(k: Kernel): (n: nat)
    requires KShape(k)
  {
    Max(0, Pages(k.mem.breaks[Cur(k.procs).dir]) - PAG_LOG_INIT_HEAP)
  }

  // All these frames are even, and each is kept.
  ghost predicate AllKept(k: Kernel, fs: seq<FrameNo>)
    requires KShape(k)
  {
    forall f: FrameNo :: f in fs ==> f % 2 == 0 && KeptSomewhere(k, f)
  }

  ghost predicate KeptSomewhere(k: Kernel, f: FrameNo)
    requires KShape(k)
  {
    exists d: TaskId, p: PageNo :: d != 2 && p >= PAG_LOG_INIT_HEAP && Kept(k, d, p, f)
  }

  lemma SomewhereUsed(k: Kernel, f: FrameNo)
    requires KShape(k) && KInv(k) && KeptSomewhere(k, f)
    ensures f >= FIRST_FRAME && k.mem.used[f]
  {
    hide KInv, Kept;
    var d: TaskId, p: PageNo :| d != 2 && p >= PAG_LOG_INIT_HEAP && Kept(k, d, p, f);
    KeptUsed(k, d, p, f);
  }

  lemma NextSomewhere(k: Kernel, e: KEvent, k': Kernel, f: FrameNo)
    requires KShape(k) && KInv(k) && OneHeap(k) && KShape(k') && KNext(k, e, k') && KeptSomewhere(k, f)
    ensures KeptSomewhere(k', f)
  {
    hide KInv, OneHeap, KNext, Kept;
    var d: TaskId, p: PageNo :| d != 2 && p >= PAG_LOG_INIT_HEAP && Kept(k, d, p, f);
    NextKept(k, e, k', d, p, f);
  }

  // What a step gives was free, is distinct and even, and is kept from now on.
  lemma GivenFresh(k: Kernel, e: KEvent, k': Kernel)
    requires KShape(k) && KInv(k) && OneHeap(k) && KShape(k') && KInv(k') && KNext(k, e, k')
    ensures var fs := GivenBy(k, e, k');
            && AllDistinct(fs) && AllKept(k', fs) && (forall f: FrameNo :: f in fs ==> !k.mem.used[f])
            && |fs| == if Gives(k, e, ChildDir(k.procs)) then HeapPages(k) else 0
  {
    hide KInv, OneHeap, KNext, Gives, Kept;
    var d := ChildDir(k.procs);
    if Gives(k, e, d) {
      var hi := Pages(k.mem.breaks[Cur(k.procs).dir]);
      GivenEntries(k, e, k', d);
      var fs := GivenBy(k, e, k');
      forall f: FrameNo | f in fs ensures f % 2 == 0 && KeptSomewhere(k', f) && !k.mem.used[f] {
        var i :| 0 <= i < |fs| && fs[i] == f;
        var page: PageNo := PAG_LOG_INIT_HEAP + i;
        GivenKept(k, e, k', d, page);
      }
    }
  }

  lemma GivenEntries(k: Kernel, e: KEvent, k': Kernel, d: TaskId)
    requires KShape(k) && KInv(k) && OneHeap(k) && KShape(k') && KInv(k') && KNext(k, e, k') && Gives(k, e, d)
    ensures var hi := Pages(k.mem.breaks[Cur(k.procs).dir]); var t := k'.mem.tables[d];
            && PAG_LOG_INIT_HEAP <= hi <= TOTAL_PAGES
            && AllDistinct(FramesOf(t, PAG_LOG_INIT_HEAP, hi))
            && forall p: PageNo :: PAG_LOG_INIT_HEAP <= p < hi ==> t[p].frame % 2 == 0 && !k.mem.used[t[p].frame]
  {
    ForkGivesHeap(k, e, k', d);
    hide Inv, LiveDirs, SaneDirs, AddressSpaces.Fork, Processes.Fork, FreeDir;
    var s := k.procs;
    var father := Cur(s).dir;
    CurrentDirLive(s);
    PickedDir(s);
    CoveredMapped(k.mem, LiveDirs(s), SaneDirs(s), father);
    var hi := Pages(k.mem.breaks[father]);
    OwnPages(k'.mem, LiveDirs(k'.procs), SaneDirs(k'.procs), d, hi);
    hide Covered, MemInv;
    forall p: PageNo | PAG_LOG_INIT_HEAP <= p < hi ensures !k.mem.used[k'.mem.tables[d][p].frame] {
      ForkFaithful(k.mem, LiveDirs(s), SaneDirs(s), father, d, p);
    }
  }

  lemma OwnPages(m: Mem, live: set<TaskId>, sane: set<TaskId>, d: TaskId, hi: nat)
    requires MemInv(m, live, sane) && d in sane && PAG_LOG_INIT_HEAP <= hi <= TOTAL_PAGES
    requires forall p: PageNo :: PAG_LOG_INIT_HEAP <= p < hi ==> m.tables[d][p].present
    ensures AllDistinct(FramesOf(m.tables[d], PAG_LOG_INIT_HEAP, hi))
    ensures forall p: PageNo :: PAG_LOG_INIT_HEAP <= p < hi ==> m.tables[d][p].frame % 2 == 0
  {
    var t := m.tables[d];
    var fs := FramesOf(t, PAG_LOG_INIT_HEAP, hi);
    forall p: PageNo | PAG_LOG_INIT_HEAP <= p < hi ensures t[p] != ABSENT && t[p].frame % 2 == 0 {
      assert t[p].present;
      assert Owned(m, t[p]);
    }
    forall i, j | 0 <= i < j < |fs| ensures fs[i] != fs[j] {
      assert t[PAG_LOG_INIT_HEAP + i] != ABSENT && t[PAG_LOG_INIT_HEAP + j] != ABSENT;
    }
  }

  lemma DistinctAppend(a: seq<FrameNo>, b: seq<FrameNo>)
    requires AllDistinct(a) && AllDistinct(b) && forall f :: f in a ==> f !in b
    ensures AllDistinct(a + b)
  {
    var c := a + b;
    forall i, j | 0 <= i < j < |c| ensures c[i] != c[j] {
      if i < |a| <= j { assert c[i] in a && c[j] in b; }
    }
  }

  // One more step.
  lemma NextGiven(k: Kernel, e: KEvent, k': Kernel, before: seq<FrameNo>)
    requires KShape(k) && KInv(k) && OneHeap(k) && KShape(k') && KInv(k') && KNext(k, e, k')
    requires AllDistinct(before) && AllKept(k, before)
    ensures var fs := before + GivenBy(k, e, k'); AllDistinct(fs) && AllKept(k', fs)
  {
    hide KInv, OneHeap, KNext, KeptSomewhere, AllDistinct, GivenBy;
    var more := GivenBy(k, e, k');
    GivenFresh(k, e, k');
    forall f: FrameNo | f in before ensures KeptSomewhere(k', f) && k.mem.used[f] {
      SomewhereUsed(k, f);
      NextSomewhere(k, e, k', f);
    }
    DistinctAppend(before, more);
  }

  lemma AllUsedIn(k: Kernel, fs: seq<FrameNo>)
    requires KShape(k) && KInv(k) && AllKept(k, fs)
    ensures forall f: FrameNo :: f in fs ==> FIRST_FRAME <= f && f % 2 == 0 && k.mem.used[f]
  {
    hide KInv, KeptSomewhere;
    forall f: FrameNo | f in fs ensures FIRST_FRAME <= f && k.mem.used[f] { SomewhereUsed(k, f); }
  }

  // All frames given to children as heap are distinct, even and in use, in every state of a run.
  lemma {:induction false} GivenStay(states: seq<Kernel>, evs: seq<KEvent>, j: nat)
    requires KRun(states, evs) && j <= |evs|
    ensures var fs := Given(states, evs, j);
            && |fs| == PagesGiven(states, evs, j) && AllDistinct(fs) && AllKept(states[j], fs)
            && forall f: FrameNo :: f in fs ==> FIRST_FRAME <= f && f % 2 == 0 && states[j].mem.used[f]
  {
    hide KInv, OneHeap, KEnabled, KStep, KNext, Gives, AllKept, HeapPages, AllDistinct, GivenBy;
    if j == 0 {
      NothingGiven(states[0]);
    } else {
      GivenStay(states, evs, j - 1);
      RunStep(states, evs, j - 1);
      var k, k' := states[j - 1], states[j - 1 + 1];
      NextGiven(k, evs[j - 1], k', Given(states, evs, j - 1));
      GivenFresh(k, evs[j - 1], k');
      AllUsedIn(k', Given(states, evs, j));
    }
  }

  lemma NothingGiven(k: Kernel)
    requires KShape(k)
    ensures AllDistinct([]) && AllKept(k, [])
  {
  }

  // So every granted fork uses up for good as many frames as the father has heap pages: those
  // given so far and the free ones are never more than 376 together.
  lemma ForksUseUpFrames(states: seq<Kernel>, evs: seq<KEvent>, j: nat)
    requires KRun(states, evs) && j <= |evs|
    ensures PagesGiven(states, evs, j) + |FreeEvens(states[j].mem.used)| <= 376
  {
    hide KInv, OneHeap, Given, PagesGiven, Kept, Take, FreeEvens;
    GivenStay(states, evs, j);
    RunOneHeap(states, evs, j);
    ReservedIn(states[j]);
    var m := states[j].mem;
    var free := |FreeEvens(m.used)|;
    TakeSucceeds(m.used, free);
    FreshFrames(m, free);
    DistinctAppend(Given(states, evs, j), Take(m.used, free).value);
    AtMost376(Given(states, evs, j) + Take(m.used, free).value);
  }

  lemma ReservedIn(k: Kernel)
    requires KInv(k)
    ensures KShape(k) && Reserved(k.mem.used)
  {
  }
}
