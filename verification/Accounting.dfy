// Where every frame is: held by a directory, free, or orphaned, which means in use with nobody to
// give it back; and which steps orphan a frame.
module Accounting {
  import opened Layout
  import opened Processes
  import opened ProcessInvariants
  import opened ProcessSteps
  import opened Frames
  import opened AddressSpaces
  import opened MemoryInvariants
  import opened SbrkLaws
  import opened ForkLaws
  import opened Kernel
  import opened Runs

  // Frame f is in use, but no sound directory has it as data or heap.
  ghost predicate Orphan(m: Mem, sane: set<TaskId>, f: FrameNo)
    requires MemShape(m)
  {
    f >= FIRST_FRAME && m.used[f] && forall d: TaskId :: d in sane ==> !Holds(m.tables[d], f)
  }

  // A page from lo to hi - 1 has frame f.
  ghost predicate HoldsIn(t: Table, f: FrameNo, lo: int, hi: int) {
    exists p: PageNo :: PAG_LOG_INIT_DATA <= p && lo <= p < hi && t[p].present && t[p].frame == f
  }

  /* Changes of one directory */

  // The holder of a frame is unique: another page that has it is no other page.
  lemma OneHolder(m: Mem, sane: set<TaskId>, f: FrameNo, d1: TaskId, p1: PageNo, d2: TaskId, p2: PageNo)
    requires MemShape(m) && Unshared(m, sane) && d1 in sane && d2 in sane
    requires p1 >= PAG_LOG_INIT_DATA && m.tables[d1][p1].present && m.tables[d1][p1].frame == f
    requires p2 >= PAG_LOG_INIT_DATA && m.tables[d2][p2].present && m.tables[d2][p2].frame == f
    ensures d1 == d2 && p1 == p2
  {
    assert m.tables[d1][p1] != ABSENT && m.tables[d2][p2] != ABSENT;
  }

  lemma HolderOwned(m: Mem, sane: set<TaskId>, f: FrameNo, d: TaskId)
    requires MemShape(m) && OwnFrames(m, sane) && d in sane && Holds(m.tables[d], f)
    ensures f >= FIRST_FRAME && m.used[f]
  {
    var p: PageNo :| p >= PAG_LOG_INIT_DATA && m.tables[d][p].present && m.tables[d][p].frame == f;
    assert Owned(m, m.tables[d][p]);
  }

  // Directory d has lost its pages lo .. hi - 1 and got new ones there, or none; other pages are
  // as they were. Then the frame f, still in use and not among the new, is held exactly if it was
  // and not there.
  lemma StillHeld(m: Mem, m': Mem, sane: set<TaskId>, d: TaskId, lo: nat, hi: nat, f: FrameNo)
    requires MemShape(m) && MemShape(m') && Unshared(m, sane) && d in sane && lo >= PAG_LOG_INIT_DATA
    requires forall e: TaskId :: e in sane && e != d ==> m'.tables[e] == m.tables[e]
    requires forall p: PageNo :: p >= PAG_LOG_INIT_DATA && !(lo <= p < hi) ==> m'.tables[d][p] == m.tables[d][p]
    requires forall p: PageNo :: lo <= p < hi && m'.tables[d][p].present ==> m'.tables[d][p].frame != f
    ensures (exists e: TaskId :: e in sane && Holds(m'.tables[e], f)) <==>
            (exists e: TaskId :: e in sane && Holds(m.tables[e], f)) && !HoldsIn(m.tables[d], f, lo, hi)
  {
    if e: TaskId :| e in sane && Holds(m'.tables[e], f) {
      var p: PageNo :| p >= PAG_LOG_INIT_DATA && m'.tables[e][p].present && m'.tables[e][p].frame == f;
      assert m.tables[e][p] == m'.tables[e][p];
      assert Holds(m.tables[e], f);
      if HoldsIn(m.tables[d], f, lo, hi) {
        var q: PageNo :| PAG_LOG_INIT_DATA <= q && lo <= q < hi && m.tables[d][q].present && m.tables[d][q].frame == f;
        OneHolder(m, sane, f, e, p, d, q);
      }
    }
    if e: TaskId :| e in sane && Holds(m.tables[e], f) {
      var p: PageNo :| p >= PAG_LOG_INIT_DATA && m.tables[e][p].present && m.tables[e][p].frame == f;
      if !HoldsIn(m.tables[d], f, lo, hi) {
        assert m'.tables[e][p] == m.tables[e][p];
        assert Holds(m'.tables[e], f);
      }
    }
  }

  // Mapping fresh frames orphans what was mapped there.
  lemma MappingOrphans(m: Mem, m': Mem, sane: set<TaskId>, d: TaskId, first: nat, fs: seq<FrameNo>, f: FrameNo)
    requires MemShape(m) && MemShape(m') && OwnFrames(m, sane) && Unshared(m, sane) && Reserved(m.used)
    requires MappedAfresh(m, m', d, first, fs) && d in sane && first + |fs| <= TOTAL_PAGES
    ensures Orphan(m', sane, f) <==> Orphan(m, sane, f) || HoldsIn(m.tables[d], f, first, first + |fs|)
  {
    hide OwnFrames, Unshared, HoldsIn, Holds, Take, Reserved;
    FreshFrames(m, |fs|);
    if f in fs {
      NewFrameHeld(m, m', d, first, fs, f);
      NotHeldIn(m, sane, d, first, first + |fs|, f);
    } else {
      OldFrame(m, m', sane, d, first, fs, f);
    }
  }

  lemma NewFrameHeld(m: Mem, m': Mem, d: TaskId, first: nat, fs: seq<FrameNo>, f: FrameNo)
    requires MemShape(m) && MemShape(m') && MappedAfresh(m, m', d, first, fs) && f in fs && first + |fs| <= TOTAL_PAGES
    ensures Holds(m'.tables[d], f)
  {
    var i :| 0 <= i < |fs| && fs[i] == f;
    var p: PageNo := first + i;
    assert m'.tables[d][p] == Entry(true, f);
  }

  lemma OldFrame(m: Mem, m': Mem, sane: set<TaskId>, d: TaskId, first: nat, fs: seq<FrameNo>, f: FrameNo)
    requires MemShape(m) && MemShape(m') && OwnFrames(m, sane) && Unshared(m, sane)
    requires MappedAfresh(m, m', d, first, fs) && d in sane && first + |fs| <= TOTAL_PAGES && f !in fs
    ensures Orphan(m', sane, f) <==> Orphan(m, sane, f) || HoldsIn(m.tables[d], f, first, first + |fs|)
  {
    forall p: PageNo | first <= p < first + |fs| ensures m'.tables[d][p].frame != f {
      assert fs[p - first] in fs;
    }
    StillHeld(m, m', sane, d, first, first + |fs|, f);
    HeldInUsed(m, sane, d, first, first + |fs|, f);
    hide OwnFrames, Unshared, HoldsIn, Holds, Take;
  }

  lemma NotHeldIn(m: Mem, sane: set<TaskId>, d: TaskId, lo: int, hi: int, f: FrameNo)
    requires MemShape(m) && OwnFrames(m, sane) && d in sane && !m.used[f]
    ensures !HoldsIn(m.tables[d], f, lo, hi)
  {
    forall p: PageNo | PAG_LOG_INIT_DATA <= p && m.tables[d][p].present ensures m.tables[d][p].frame != f {
      assert Owned(m, m.tables[d][p]);
    }
  }

  lemma HeldInUsed(m: Mem, sane: set<TaskId>, d: TaskId, lo: int, hi: int, f: FrameNo)
    requires MemShape(m) && OwnFrames(m, sane) && d in sane
    ensures HoldsIn(m.tables[d], f, lo, hi) ==> f >= FIRST_FRAME && m.used[f] && Holds(m.tables[d], f)
  {
    if HoldsIn(m.tables[d], f, lo, hi) {
      var p: PageNo :| PAG_LOG_INIT_DATA <= p && lo <= p < hi && m.tables[d][p].present && m.tables[d][p].frame == f;
      assert Holds(m.tables[d], f);
      HolderOwned(m, sane, f, d);
    }
  }

  // Clearing pages without giving their frames back orphans these.
  lemma ClearingOrphans(m: Mem, m': Mem, sane: set<TaskId>, d: TaskId, lo: nat, hi: nat, f: FrameNo)
    requires MemShape(m) && MemShape(m') && OwnFrames(m, sane) && Unshared(m, sane)
    requires d in sane && lo >= PAG_LOG_INIT_DATA
    requires m'.tables == m.tables[d := UnmapPages(m.tables[d], lo, hi)] && m'.used == m.used
    ensures Orphan(m', sane, f) <==> Orphan(m, sane, f) || HoldsIn(m.tables[d], f, lo, hi)
  {
    StillHeld(m, m', sane, d, lo, hi, f);
    HeldInUsed(m, sane, d, lo, hi, f);
  }

  // Giving them back orphans nothing.
  lemma ReleasingOrphansNothing(m: Mem, m': Mem, sane: set<TaskId>, d: TaskId, lo: nat, hi: nat, f: FrameNo)
    requires MemShape(m) && MemShape(m') && OwnFrames(m, sane) && Unshared(m, sane)
    requires d in sane && PAG_LOG_INIT_DATA <= lo <= hi <= TOTAL_PAGES
    requires m'.tables == m.tables[d := UnmapPages(m.tables[d], lo, hi)]
    requires m'.used == Release(m.used, FramesOf(m.tables[d], lo, hi))
    ensures Orphan(m', sane, f) <==> Orphan(m, sane, f)
  {
    StillHeld(m, m', sane, d, lo, hi, f);
    HeldInUsed(m, sane, d, lo, hi, f);
    var fs := FramesOf(m.tables[d], lo, hi);
    if f >= FIRST_FRAME && f in fs {
      var i :| 0 <= i < |fs| && fs[i] == f;
      var p: PageNo := lo + i;
      assert m.tables[d][p].present by { assert m.tables[d][p] != ABSENT ==> Owned(m, m.tables[d][p]); }
      assert HoldsIn(m.tables[d], f, lo, hi);
    }
    if HoldsIn(m.tables[d], f, lo, hi) {
      var p: PageNo :| PAG_LOG_INIT_DATA <= p && lo <= p < hi && m.tables[d][p].present && m.tables[d][p].frame == f;
      assert fs[p - lo] == f;
    }
  }

  // Giving a directory up orphans all it holds.
  lemma GivingUpOrphans(m: Mem, m': Mem, sane: set<TaskId>, d: TaskId, f: FrameNo)
    requires MemShape(m) && MemShape(m') && OwnFrames(m, sane) && Unshared(m, sane) && d in sane
    requires m'.used == m.used && m'.tables == m.tables[d := m'.tables[d]]
    ensures Orphan(m', sane - {d}, f) <==> Orphan(m, sane, f) || Holds(m.tables[d], f)
  {
    if Holds(m.tables[d], f) {
      HolderOwned(m, sane, f, d);
      var p: PageNo :| p >= PAG_LOG_INIT_DATA && m.tables[d][p].present && m.tables[d][p].frame == f;
      forall e: TaskId, q: PageNo | e in sane - {d} && q >= PAG_LOG_INIT_DATA && m'.tables[e][q].present
        ensures m'.tables[e][q].frame != f
      {
        assert m'.tables[e] == m.tables[e];
        if m.tables[e][q].frame == f { OneHolder(m, sane, f, d, p, e, q); }
      }
    } else {
      forall e: TaskId | e in sane && e != d ensures m'.tables[e] == m.tables[e] {}
    }
  }

  /* Steps */

  // The step takes page p away from directory d without giving its frame back: a growth or a new
  // child is mapped over it, the window of a fork is used there, or the directory is lost.
  ghost predicate Overrides(k: Kernel, e: KEvent, d: TaskId, p: PageNo)
    requires KShape(k) && KEnabled(k, e)
  {
    var s := k.procs;
    var caller := Cur(s).dir;
    match e
    case SysSbrk(increment) =>
      && increment > 0 && Sbrk(k.mem, caller, increment).1 >= 0
      && d == caller && Pages(k.mem.breaks[d]) <= p < Pages(k.mem.breaks[d] + increment)
    case SysFork =>
      && s.queues[FREE] != []
      && if AddressSpaces.Fork(k.mem, caller, ChildDir(s)).1 then
           || (d == ChildDir(s) && p < Pages(k.mem.breaks[caller]))
           || (d == caller && Pages(k.mem.breaks[caller]) <= p < WindowEnd(k.mem, caller))
         else d == ChildDir(s)
    case _ => false
  }

  // It does so to a mapped page, with frame f.
  ghost predicate Drops(k: Kernel, e: KEvent, f: FrameNo)
    requires KShape(k) && KEnabled(k, e)
  {
    exists d: TaskId, p: PageNo ::
      && d in SaneDirs(k.procs) && p >= PAG_LOG_INIT_DATA
      && k.mem.tables[d][p].present && k.mem.tables[d][p].frame == f && Overrides(k, e, d, p)
  }

  lemma SameMemory(k: Kernel, k': Kernel, f: FrameNo)
    requires KShape(k) && KShape(k') && SaneDirs(k'.procs) == SaneDirs(k.procs)
    requires k'.mem.used == k.mem.used && k'.mem.tables == k.mem.tables
    ensures Orphan(k'.mem, SaneDirs(k'.procs), f) <==> Orphan(k.mem, SaneDirs(k.procs), f)
  {
  }

  lemma SbrkDrops(k: Kernel, increment: int, f: FrameNo)
    requires KShape(k) && KInv(k) && KEnabled(k, KEvent.SysSbrk(increment)) && increment > 0
    requires Sbrk(k.mem, Cur(k.procs).dir, increment).1 >= 0
    ensures var d := Cur(k.procs).dir; var b := k.mem.breaks[d];
            Drops(k, KEvent.SysSbrk(increment), f) <==> HoldsIn(k.mem.tables[d], f, Pages(b), Pages(b + increment))
  {
    hide Inv, MemInv, LiveDirs, SaneDirs, Sbrk, Covered;
    var d := Cur(k.procs).dir;
    var b := k.mem.breaks[d];
    var e := KEvent.SysSbrk(increment);
    CallerSane(k);
    if HoldsIn(k.mem.tables[d], f, Pages(b), Pages(b + increment)) {
      var p: PageNo :| PAG_LOG_INIT_DATA <= p && Pages(b) <= p < Pages(b + increment)
                       && k.mem.tables[d][p].present && k.mem.tables[d][p].frame == f;
      assert Overrides(k, e, d, p);
    }
    if Drops(k, e, f) {
      var o: TaskId, p: PageNo :|
        && o in SaneDirs(k.procs) && p >= PAG_LOG_INIT_DATA
        && k.mem.tables[o][p].present && k.mem.tables[o][p].frame == f && Overrides(k, e, o, p);
    }
  }

  lemma CallerSane(k: Kernel)
    requires KShape(k) && KInv(k) && k.procs.current != k.procs.idle
    ensures Cur(k.procs).dir in LiveDirs(k.procs) && Cur(k.procs).dir in SaneDirs(k.procs)
  {
    CurrentDirLive(k.procs);
  }

  lemma GrowthOrphans(m: Mem, live: set<TaskId>, sane: set<TaskId>, d: TaskId, increment: int, f: FrameNo)
    requires MemShape(m) && MemInv(m, live, sane) && d in live && Covered(m, d)
    requires 0 < increment < TWO_31 && Sbrk(m, d, increment).1 >= 0
    ensures var m' := Sbrk(m, d, increment).0; var b := m.breaks[d];
            Orphan(m', sane, f) <==> Orphan(m, sane, f) || HoldsIn(m.tables[d], f, Pages(b), Pages(b + increment))
  {
    hide Covered, Sbrk, Take, OwnFrames, Unshared, Reserved, UserTable, Orphan, Pages, HoldsIn, MappedAfresh, GrowWith;
    GrowthStaysInTable(m, live, sane, d, increment);
    CoveredMapped(m, live, sane, d);
    GrownMemory(m, d, increment);
    var b := m.breaks[d];
    var fs := Take(m.used, Pages(b + increment) - Pages(b)).value;
    GrowthMaps(m, d, b + increment, fs);
    MappingOrphans(m, GrowWith(m, d, b + increment, fs), sane, d, Pages(b), fs, f);
  }

  lemma GrowthMaps(m: Mem, d: TaskId, end: nat, fs: seq<FrameNo>)
    requires MemShape(m) && Pages(m.breaks[d]) >= PAG_LOG_INIT_DATA && Take(m.used, |fs|) == Some(fs)
    ensures MappedAfresh(m, GrowWith(m, d, end, fs), d, Pages(m.breaks[d]), fs)
  {
    hide Take, Pages, Mark;
  }

  lemma SbrkOrphans(k: Kernel, increment: int, f: FrameNo)
    requires KShape(k) && KInv(k) && KEnabled(k, KEvent.SysSbrk(increment))
    ensures var e := KEvent.SysSbrk(increment); var k' := KStep(k, e).0;
            Orphan(k'.mem, SaneDirs(k'.procs), f) <==> Orphan(k.mem, SaneDirs(k.procs), f) || Drops(k, e, f)
  {
    hide Inv, MemInv, LiveDirs, SaneDirs, Sbrk, Orphan;
    var d := Cur(k.procs).dir;
    CallerSane(k);
    if increment > 0 && Sbrk(k.mem, d, increment).1 >= 0 {
      SbrkDrops(k, increment, f);
      hide Drops;
      GrowthOrphans(k.mem, LiveDirs(k.procs), SaneDirs(k.procs), d, increment, f);
    } else if increment == 0 {
      SbrkOfNothing(k.mem, d);
    } else if Sbrk(k.mem, d, increment).1 < 0 {
      SbrkRefused(k.mem, d, increment);
    } else {
      ShrinkOrphansNothing(k.mem, LiveDirs(k.procs), SaneDirs(k.procs), d, increment, f);
    }
  }

  lemma ShrinkOrphansNothing(m: Mem, live: set<TaskId>, sane: set<TaskId>, d: TaskId, increment: int, f: FrameNo)
    requires MemShape(m) && MemInv(m, live, sane) && d in sane && increment < 0 && SbrkDefined(m.breaks[d], increment)
    ensures Orphan(Sbrk(m, d, increment).0, sane, f) <==> Orphan(m, sane, f)
  {
    var b := m.breaks[d];
    SbrkIsShrink(m, d, increment);
    ShrunkFrom(b, b + increment);
    hide Sbrk, OwnFrames, Unshared, Reserved, Orphan, Pages, FreedEnd, ShrinkFrom;
    ReleasingOrphansNothing(m, Shrink(m, d, b + increment), sane, d, ShrinkFrom(b + increment), FreedEnd(b), f);
  }

  // What a granted fork orphans: what the child's slot had where its data and heap now are, and
  // what the father had in the window.
  lemma GrantedForkOrphans(m: Mem, live: set<TaskId>, sane: set<TaskId>, father: TaskId, child: TaskId, f: FrameNo)
    requires MemShape(m) && MemInv(m, live, sane) && father in live && Covered(m, father)
    requires child in sane && child !in live && AddressSpaces.Fork(m, father, child).1
    ensures var hi := Pages(m.breaks[father]);
            Orphan(AddressSpaces.Fork(m, father, child).0, sane, f) <==>
            || Orphan(m, sane, f) || HoldsIn(m.tables[child], f, PAG_LOG_INIT_DATA, hi)
            || HoldsIn(m.tables[father], f, hi, WindowEnd(m, father))
  {
    hide MemInv, Covered, AddressSpaces.Fork, Take, OwnFrames, Unshared, Reserved, Orphan, Pages, HoldsIn,
         MappedAfresh, MapChild;
    CoveredMapped(m, live, sane, father);
    CoveredBreak(m, father);
    var hi := Pages(m.breaks[father]);
    var n := hi - PAG_LOG_INIT_DATA;
    ForkClears(m, father, child);
    var m1 := MapChild(m, father, child, n);
    ForkMaps(m, live, sane, father, child, n);
    MemParts(m, live, sane);
    MemParts(m1, live + {child}, sane);
    ChildMaps(m, father, child, n);
    MappingOrphans(m, m1, sane, child, PAG_LOG_INIT_DATA, Take(m.used, n).value, f);
    ClearingOrphans(m1, AddressSpaces.Fork(m, father, child).0, sane, father, hi, hi + n, f);
  }

  lemma MemParts(m: Mem, live: set<TaskId>, sane: set<TaskId>)
    requires MemInv(m, live, sane)
    ensures live <= sane && OwnFrames(m, sane) && Unshared(m, sane) && Reserved(m.used)
  {
  }

  lemma ForkClears(m: Mem, father: TaskId, child: TaskId)
    requires MemShape(m) && HEAP_BASE <= m.breaks[father] <= RAM_SIZE && AddressSpaces.Fork(m, father, child).1
    requires child != father
    ensures var hi := Pages(m.breaks[father]); var n := hi - PAG_LOG_INIT_DATA;
            && Take(m.used, n).Some?
            && var m1 := MapChild(m, father, child, n); var m' := AddressSpaces.Fork(m, father, child).0;
               && m1.tables[father] == m.tables[father] && m'.used == m1.used
               && m'.tables == m1.tables[father := UnmapPages(m1.tables[father], hi, hi + n)]
  {
    hide AddressSpaces.Fork, Take, Pages, ChildTable, UnmapPages, CopyFrames, FramesOf, Mark;
    ForkGranted(m, father, child);
  }

  lemma ChildMaps(m: Mem, father: TaskId, child: TaskId, n: nat)
    requires MemShape(m) && Take(m.used, n).Some?
    ensures MappedAfresh(m, MapChild(m, father, child, n), child, PAG_LOG_INIT_DATA, Take(m.used, n).value)
  {
    hide Take, Mark;
  }

  lemma RefusedForkOrphans(m: Mem, sane: set<TaskId>, father: TaskId, child: TaskId, f: FrameNo)
    requires MemShape(m) && OwnFrames(m, sane) && Unshared(m, sane) && child in sane
    requires HEAP_BASE <= m.breaks[father] <= RAM_SIZE && !AddressSpaces.Fork(m, father, child).1
    ensures Orphan(AddressSpaces.Fork(m, father, child).0, sane - {child}, f)
            <==> Orphan(m, sane, f) || Holds(m.tables[child], f)
  {
    hide Take, OwnFrames, Unshared, Orphan, Holds, Pages;
    GivingUpOrphans(m, AddressSpaces.Fork(m, father, child).0, sane, child, f);
  }

  lemma ForkDrops(k: Kernel, f: FrameNo)
    requires KShape(k) && KInv(k) && KEnabled(k, SysFork) && k.procs.queues[FREE] != []
    ensures var s := k.procs; var m := k.mem; var father := Cur(s).dir; var child := ChildDir(s);
            && father in LiveDirs(s) && child in SaneDirs(s) && child !in LiveDirs(s) && Covered(m, father)
            && (Drops(k, SysFork, f) <==>
                if AddressSpaces.Fork(m, father, child).1 then
                  || HoldsIn(m.tables[child], f, PAG_LOG_INIT_DATA, Pages(m.breaks[father]))
                  || HoldsIn(m.tables[father], f, Pages(m.breaks[father]), WindowEnd(m, father))
                else Holds(m.tables[child], f))
  {
    hide Inv, MemInv, LiveDirs, SaneDirs, AddressSpaces.Fork, FreeDir;
    CallerSane(k);
    PickedDir(k.procs);
    hide Covered;
    var t := k.mem.tables;
    var father := Cur(k.procs).dir;
    var child := ChildDir(k.procs);
    var hi := Pages(k.mem.breaks[father]);
    forall d: TaskId, p: PageNo |
      d in SaneDirs(k.procs) && p >= PAG_LOG_INIT_DATA && t[d][p].present && t[d][p].frame == f
      ensures Overrides(k, SysFork, d, p) <==>
              if AddressSpaces.Fork(k.mem, father, child).1
              then (d == child && p < hi) || (d == father && hi <= p < WindowEnd(k.mem, father))
              else d == child
    {
    }
    if AddressSpaces.Fork(k.mem, father, child).1 {
      if HoldsIn(t[child], f, PAG_LOG_INIT_DATA, hi) {
        var p: PageNo :| PAG_LOG_INIT_DATA <= p < hi && t[child][p].present && t[child][p].frame == f;
        assert Overrides(k, SysFork, child, p);
      }
      if HoldsIn(t[father], f, hi, WindowEnd(k.mem, father)) {
        var p: PageNo :| PAG_LOG_INIT_DATA <= p && hi <= p < WindowEnd(k.mem, father)
                         && t[father][p].present && t[father][p].frame == f;
        assert Overrides(k, SysFork, father, p);
      }
    } else if Holds(t[child], f) {
      var p: PageNo :| PAG_LOG_INIT_DATA <= p && t[child][p].present && t[child][p].frame == f;
      assert Overrides(k, SysFork, child, p);
    }
  }

  lemma ForkOrphans(k: Kernel, f: FrameNo)
    requires KShape(k) && KInv(k) && KEnabled(k, SysFork)
    ensures var k' := KFork(k).0;
            Orphan(k'.mem, SaneDirs(k'.procs), f) <==> Orphan(k.mem, SaneDirs(k.procs), f) || Drops(k, SysFork, f)
  {
    hide Inv, LiveDirs, SaneDirs, AddressSpaces.Fork, Processes.Fork, Orphan, FreeDir;
    var s := k.procs;
    if s.queues[FREE] != [] {
      var ok := AddressSpaces.Fork(k.mem, Cur(s).dir, ChildDir(s)).1;
      ForkDrops(k, f);
      ForkDirs(s, ok);
      hide Covered, Drops, HoldsIn, Holds, UserTable, OwnFrames, Unshared, Reserved;
      if ok {
        GrantedForkOrphans(k.mem, LiveDirs(s), SaneDirs(s), Cur(s).dir, ChildDir(s), f);
      } else {
        RefusedForkOrphans(k.mem, SaneDirs(s), Cur(s).dir, ChildDir(s), f);
      }
    }
  }

  lemma ExitOrphansNothing(k: Kernel, f: FrameNo)
    requires KShape(k) && KInv(k) && KEnabled(k, SysExit)
    ensures Orphan(KExit(k).mem, SaneDirs(KExit(k).procs), f) <==> Orphan(k.mem, SaneDirs(k.procs), f)
  {
    ExitDirs(k.procs);
    CallerSane(k);
    var d := Cur(k.procs).dir;
    hide Inv, LiveDirs, SaneDirs, Orphan, OwnFrames, Unshared, Reserved, UserTable, LeaveDir, Processes.Exit;
    ReleasingOrphansNothing(k.mem, FreeUserPages(k.mem, d), SaneDirs(k.procs), d, PAG_LOG_INIT_DATA,
                            FreedEnd(k.mem.breaks[d]), f);
  }

  // A step orphans a frame if and only if it takes a mapped page with that frame away without
  // giving it back; and an orphan stays one.
  lemma OrphansExactly(k: Kernel, e: KEvent, f: FrameNo)
    requires KShape(k) && KInv(k) && KEnabled(k, e)
    ensures var k' := KStep(k, e).0;
            Orphan(k'.mem, SaneDirs(k'.procs), f) <==> Orphan(k.mem, SaneDirs(k.procs), f) || Drops(k, e, f)
  {
    match e
    case Proc(pe) =>
      ProcDirs(k.procs, pe);
      SameMemory(k, KStep(k, e).0, f);
    case SysFork => ForkOrphans(k, f);
    case SysExit => ExitOrphansNothing(k, f);
    case SysSbrk(increment) => SbrkOrphans(k, increment, f);
    case Store(_, _, _) => SameMemory(k, KStep(k, e).0, f);
  }

  /* Runs */

  // Step i of the run drops frame f.
  ghost predicate DropsAt(states: seq<Kernel>, evs: seq<KEvent>, i: nat, f: FrameNo)
    requires KRun(states, evs) && i < |evs|
  {
    assert KNext(states[i], evs[i], states[i + 1]);
    Drops(states[i], evs[i], f)
  }

  lemma BootHasNoOrphan(k: Kernel, f: FrameNo)
    requires KShape(k) && exists guard0, guard1, ram :: k == KBoot(guard0, guard1, ram)
    ensures !Orphan(k.mem, SaneDirs(k.procs), f)
  {
    var guard0, guard1, ram :| k == KBoot(guard0, guard1, ram);
    if f >= FIRST_FRAME && k.mem.used[f] {
      var i := (f - NUM_PAG_KERNEL) / 2;
      var p: PageNo := PAG_LOG_INIT_CODE + i;
      assert k.mem.tables[2][p] == Entry(true, f);
      assert Holds(k.mem.tables[2], f);
      assert 2 in SaneDirs(k.procs);
    }
  }

  // In every state of every run a frame is orphaned exactly if some step before has dropped it.
  // So every other frame from 272 up is free, or the data or heap of a sound directory.
  lemma {:induction false} FramesAccountedFor(states: seq<Kernel>, evs: seq<KEvent>, j: nat, f: FrameNo)
    requires KRun(states, evs) && j <= |evs|
    ensures Orphan(states[j].mem, SaneDirs(states[j].procs), f)
            <==> exists i :: 0 <= i < j && DropsAt(states, evs, i, f)
  {
    hide KInv, Orphan, Drops, KEnabled, KStep, SaneDirs;
    if j == 0 {
      BootHasNoOrphan(states[0], f);
    } else {
      FramesAccountedFor(states, evs, j - 1, f);
      RunOneHeap(states, evs, j - 1);
      assert KNext(states[j - 1], evs[j - 1], states[j - 1 + 1]);
      OrphansExactly(states[j - 1], evs[j - 1], f);
      assert DropsAt(states, evs, j - 1, f) <==> Drops(states[j - 1], evs[j - 1], f);
      assert states[j] == KStep(states[j - 1], evs[j - 1]).0;
    }
  }

  /* Page 284 */

  // Task 1 grows its heap by a byte and shrinks it to just below its start, n times after boot.
  function Pairs(n: nat): (evs: seq<KEvent>)
    ensures |evs| == 2 * n
  {
    if n == 0 then [] else Pairs(n - 1) + [KEvent.SysSbrk(1)] + [KEvent.SysSbrk(-2)]
  }

  // Page 284 stays mapped; every pair has cost a frame.
  ghost predicate AfterPairs(k: Kernel, n: nat)
    requires KShape(k)
  {
    && n <= 356 && k.procs == Boot() && |FreeEvens(k.mem.used)| == 356 - n
    && k.mem.breaks[2] == HEAP_BASE && (n > 0 ==> k.mem.tables[2][PAG_LOG_INIT_HEAP].present)
  }

  lemma BaseIsCovered(m: Mem, d: TaskId)
    requires MemShape(m) && m.breaks[d] == HEAP_BASE
    ensures Covered(m, d) && Pages(HEAP_BASE) == PAG_LOG_INIT_HEAP && Pages(HEAP_BASE + 1) == PAG_LOG_INIT_HEAP + 1
  {
  }

  // sbrk(1) at the start of the heap.
  lemma OneByte(m: Mem, d: TaskId)
    requires MemShape(m) && m.breaks[d] == HEAP_BASE
    ensures var (m', r) := Sbrk(m, d, 1); var u := Take(m.used, 1);
            && (r >= 0 <==> |FreeEvens(m.used)| > 0) && (u.Some? <==> r >= 0)
            && (r < 0 ==> m' == m && r == -ENOMEM)
            && (r >= 0 ==> m' == GrowWith(m, d, HEAP_BASE + 1, u.value) && |u.value| == 1 && Covered(m', d)
                           && |FreeEvens(m'.used)| == |FreeEvens(m.used)| - 1)
  {
    BaseIsCovered(m, d);
    hide Take, FreeEvens, Sbrk, Grow, Pages;
    SbrkIsGrowth(m, d, 1);
    GrowIs(m, d, HEAP_BASE + 1, 1);
    TakeSucceeds(m.used, 1);
    if Take(m.used, 1).Some? {
      TakeDistinct(m.used, 1);
      FramesTaken(m.used, Take(m.used, 1).value);
    }
  }

  // ... and back to an unaligned end below it.
  lemma AndBack(m: Mem, d: TaskId)
    requires MemShape(m) && m.breaks[d] == HEAP_BASE + 1
    ensures Sbrk(m, d, -2).0 == m.(breaks := m.breaks[d := HEAP_BASE])
  {
    SbrkIsShrink(m, d, -2);
    var t := m.tables[d];
    assert ShrinkFrom(HEAP_BASE - 1) == FreedEnd(HEAP_BASE + 1) == PAG_LOG_INIT_HEAP + 1;
    assert UnmapPages(t, PAG_LOG_INIT_HEAP + 1, PAG_LOG_INIT_HEAP + 1) == t;
    assert Release(m.used, FramesOf(t, PAG_LOG_INIT_HEAP + 1, PAG_LOG_INIT_HEAP + 1)) == m.used;
    assert m.tables[d := t] == m.tables;
    hide Sbrk;
  }

  lemma Task1Runs()
    ensures UserRuns(Boot()) && Cur(Boot()).dir == 2
  {
  }

  // Each pair uses up a frame, although the break is where it was: 356 pairs use up all.
  lemma {:induction false} PairsUseUpFrames(guard0: nat, guard1: nat, ram: Ram, n: nat) returns (states: seq<Kernel>)
    requires n <= 356
    ensures KRun(states, Pairs(n)) && AfterPairs(states[2 * n], n)
  {
    hide FreeEvens, Boot, BootMem, Sbrk, Take;
    if n == 0 {
      FirstForkGranted(guard0, guard1, ram);
      states := [KBoot(guard0, guard1, ram)];
    } else {
      var before := PairsUseUpFrames(guard0, guard1, ram, n - 1);
      states := OnePairMore(before, n - 1);
    }
  }

  lemma OnePairMore(before: seq<Kernel>, n: nat) returns (states: seq<Kernel>)
    requires n < 356 && KRun(before, Pairs(n)) && AfterPairs(before[2 * n], n)
    ensures KRun(states, Pairs(n + 1)) && AfterPairs(states[2 * (n + 1)], n + 1)
  {
    hide FreeEvens, Boot, Sbrk, Take, Covered, GrowWith;
    var up, down := KEvent.SysSbrk(1), KEvent.SysSbrk(-2);
    var k := before[2 * n];
    Task1Runs();
    BaseIsCovered(k.mem, 2);
    OneByte(k.mem, 2);
    GrownByte(k.mem, 2);
    RunOn(before, Pairs(n), up);
    var k1 := KStep(k, up).0;
    AndBack(k1.mem, 2);
    var k2 := KStep(k1, down).0;
    RunOn(before + [k1], Pairs(n) + [up], down);
    states := before + [k1] + [k2];
    assert Pairs(n) + [up] + [down] == Pairs(n + 1);
  }

  lemma GrownByte(m: Mem, d: TaskId)
    requires MemShape(m) && m.breaks[d] == HEAP_BASE && Take(m.used, 1).Some?
    ensures GrowWith(m, d, HEAP_BASE + 1, Take(m.used, 1).value).tables[d][PAG_LOG_INIT_HEAP].present
  {
    BaseIsCovered(m, d);
    hide Take;
  }

  // With page 284 still mapped at the start of the heap, the next growth orphans its frame, and
  // undoing that growth does not bring the memory back.
  lemma NextGrowthOrphans(k: Kernel)
    requires KShape(k) && KInv(k) && UserRuns(k.procs) && Cur(k.procs).dir == 2
    requires k.mem.breaks[2] == HEAP_BASE && k.mem.tables[2][PAG_LOG_INIT_HEAP].present
    requires |FreeEvens(k.mem.used)| > 0
    ensures var f := k.mem.tables[2][PAG_LOG_INIT_HEAP].frame; var e := KEvent.SysSbrk(1);
            && KEnabled(k, e) && Drops(k, e, f) && Orphan(KStep(k, e).0.mem, SaneDirs(KStep(k, e).0.procs), f)
            && SbrkDefined(KStep(k, e).0.mem.breaks[2], -1) && Sbrk(KStep(k, e).0.mem, 2, -1).0 != k.mem
  {
    hide Inv, LiveDirs, SaneDirs, FreeEvens, Take, Sbrk, Orphan;
    var f := k.mem.tables[2][PAG_LOG_INIT_HEAP].frame;
    var e := KEvent.SysSbrk(1);
    BaseIsCovered(k.mem, 2);
    CallerSane(k);
    OneByte(k.mem, 2);
    assert Overrides(k, e, 2, PAG_LOG_INIT_HEAP);
    assert Drops(k, e, f);
    OrphansExactly(k, e, f);
    hide MemInv, Drops, Overrides;
    GrowthUndone(k.mem, LiveDirs(k.procs), SaneDirs(k.procs), 2, 1);
    assert k.mem.tables[2][PAG_LOG_INIT_HEAP] != ABSENT;
  }

  // A fork does so too: its window takes the page away from the caller, who does not survive as
  // he was although a directory is free.
  lemma NextForkOrphans(k: Kernel)
    requires KShape(k) && KInv(k) && UserRuns(k.procs) && Cur(k.procs).dir == 2
    requires k.mem.breaks[2] == HEAP_BASE && k.mem.tables[2][PAG_LOG_INIT_HEAP].present
    requires k.procs.queues[FREE] != [] && FreeDir(k.procs.dirCounter, 0) < NR_TASKS
    requires |FreeEvens(k.mem.used)| >= NUM_PAG_DATA
    ensures var f := k.mem.tables[2][PAG_LOG_INIT_HEAP].frame;
            && KEnabled(k, SysFork) && Drops(k, SysFork, f) && Orphan(KFork(k).0.mem, SaneDirs(KFork(k).0.procs), f)
            && !Survives(k.mem, KFork(k).0.mem, 2)
  {
    hide Inv, LiveDirs, SaneDirs, FreeEvens, AddressSpaces.Fork, Orphan, Survives, FreeDir;
    var f := k.mem.tables[2][PAG_LOG_INIT_HEAP].frame;
    BaseIsCovered(k.mem, 2);
    CallerSane(k);
    ForkAllOrNothing(k.mem, 2, ChildDir(k.procs));
    assert Overrides(k, SysFork, 2, PAG_LOG_INIT_HEAP);
    assert Drops(k, SysFork, f);
    OrphansExactly(k, SysFork, f);
    hide MemInv, Drops, Overrides;
    CallerSurvivesExactly(k);
    assert k.mem.tables[2][PAG_LOG_INIT_HEAP] != ABSENT;
  }

  // One pair after boot is enough for both.
  lemma StalePageReached(guard0: nat, guard1: nat, ram: Ram) returns (states: seq<Kernel>)
    ensures KRun(states, Pairs(1))
    ensures var k := states[2]; var f := k.mem.tables[2][PAG_LOG_INIT_HEAP].frame;
            && !Exact(k.mem, 2) && UserRuns(k.procs) && Cur(k.procs).dir == 2
            && KEnabled(k, KEvent.SysSbrk(1)) && Drops(k, KEvent.SysSbrk(1), f)
            && KEnabled(k, SysFork) && Drops(k, SysFork, f) && !Survives(k.mem, KFork(k).0.mem, 2)
            && FreeDir(k.procs.dirCounter, 0) < NR_TASKS
  {
    states := PairsUseUpFrames(guard0, guard1, ram, 1);
    var k := states[2];
    assert 2 * 1 == 2;
    RunOneHeap(states, Pairs(1), 2);
    FirstChildRuns();
    Task1Runs();
    hide FreeEvens, Boot, Sbrk, Take, Inv, MemInv, LiveDirs, SaneDirs, AddressSpaces.Fork, Survives, Drops, FreeDir;
    BaseIsCovered(k.mem, 2);
    NextGrowthOrphans(k);
    NextForkOrphans(k);
    assert k.mem.tables[2][PAG_LOG_INIT_HEAP] != ABSENT;
  }

  // After 356 pairs the heap is empty and cannot grow by a byte.
  lemma EmptyHeapCannotGrow(guard0: nat, guard1: nat, ram: Ram) returns (states: seq<Kernel>)
    ensures KRun(states, Pairs(356))
    ensures var m := states[712].mem; m.breaks[2] == HEAP_BASE && Sbrk(m, 2, 1) == (m, -ENOMEM)
  {
    hide FreeEvens, Boot, Sbrk, Take;
    states := PairsUseUpFrames(guard0, guard1, ram, 356);
    assert AfterPairs(states[2 * 356], 356);
    OneByte(states[712].mem, 2);
  }
}
