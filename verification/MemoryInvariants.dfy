// What fork, sbrk and the end of address spaces keep: no frame belongs to two directories or
// to two pages of one, kernel and code pages stay shared, and tables are never overrun.
module MemoryInvariants {
  import opened Layout
  import opened Frames
  import opened AddressSpaces

  type PageNo = p: nat | p < TOTAL_PAGES

  // The lowest frame a data or heap page can have: task 1's code took the eight before it.
  const FIRST_FRAME := 272

  ghost predicate Owned(m: Mem, e: Entry) {
    e.present && e.frame >= FIRST_FRAME && e.frame % 2 == 0 && m.used[e.frame]
  }

  // Every data and heap entry of these directories is empty or names a used even frame.
  ghost predicate OwnFrames(m: Mem, dirs: set<TaskId>)
    requires MemShape(m)
  {
    forall d: TaskId, p: PageNo ::
      d in dirs && p >= PAG_LOG_INIT_DATA && m.tables[d][p] != ABSENT ==> Owned(m, m.tables[d][p])
  }

  // No two of their data and heap pages have the same frame.
  ghost predicate Unshared(m: Mem, dirs: set<TaskId>)
    requires MemShape(m)
  {
    forall d1: TaskId, p1: PageNo, d2: TaskId, p2: PageNo ::
      (&& d1 in dirs && p1 >= PAG_LOG_INIT_DATA && m.tables[d1][p1] != ABSENT
       && d2 in dirs && p2 >= PAG_LOG_INIT_DATA && m.tables[d2][p2] != ABSENT
       && m.tables[d1][p1].frame == m.tables[d2][p2].frame)
      ==> d1 == d2 && p1 == p2
  }

  // Kernel page i has frame i, the code pages have task 1's code frames, data is mapped.
  ghost predicate UserTable(t: Table) {
    && (forall p :: 0 <= p < NUM_PAG_KERNEL ==> t[p].frame == p)
    && (forall i :: 0 <= i < NUM_PAG_CODE ==> t[PAG_LOG_INIT_CODE + i] == Entry(true, BootFrame(i)))
    && (forall p :: PAG_LOG_INIT_DATA <= p < PAG_LOG_INIT_HEAP ==> t[p].present)
  }

  // Kernel and code frames are never free, odd frames above the kernel never used.
  ghost predicate Reserved(u: FrameMap) {
    forall f: FrameNo :: && (f < NUM_PAG_KERNEL || (f < FIRST_FRAME && f % 2 == 0) ==> u[f])
                         && (f >= NUM_PAG_KERNEL && f % 2 == 1 ==> !u[f])
  }

  const MAX_HEAP_END := 640

  ghost predicate BreaksOk(m: Mem)
    requires MemShape(m)
  {
    forall d: TaskId :: m.breaks[d] == 0 || HEAP_BASE <= m.breaks[d] <= MAX_HEAP_END * PAGE_SIZE
  }

  // `live` are the directories of live user tasks, `sane` all but those a failed fork left
  // half built.
  ghost predicate MemInv(m: Mem, live: set<TaskId>, sane: set<TaskId>) {
    && MemShape(m) && live <= sane
    && OwnFrames(m, sane) && Unshared(m, sane)
    && (forall d: TaskId :: d in live ==> UserTable(m.tables[d]))
    && Reserved(m.used) && BreaksOk(m)
  }

  /* How much can be mapped */

  lemma MappedFrames(m: Mem, live: set<TaskId>, sane: set<TaskId>, d: TaskId, hi: nat)
    requires MemInv(m, live, sane) && d in sane && PAG_LOG_INIT_DATA <= hi <= TOTAL_PAGES
    requires forall p :: PAG_LOG_INIT_DATA <= p < hi ==> m.tables[d][p].present
    ensures var fs := FramesOf(m.tables[d], PAG_LOG_INIT_DATA, hi);
            && AllDistinct(fs)
            && forall f :: f in fs ==> FIRST_FRAME <= f && f % 2 == 0 && m.used[f]
  {
    var fs := FramesOf(m.tables[d], PAG_LOG_INIT_DATA, hi);
    forall i | 0 <= i < |fs| ensures FIRST_FRAME <= fs[i] && fs[i] % 2 == 0 && m.used[fs[i]] {
      var p: PageNo := PAG_LOG_INIT_DATA + i;
      assert Owned(m, m.tables[d][p]);
    }
    forall i, j | 0 <= i < j < |fs| ensures fs[i] != fs[j] {
      var p1: PageNo := PAG_LOG_INIT_DATA + i;
      var p2: PageNo := PAG_LOG_INIT_DATA + j;
      assert m.tables[d][p1] != ABSENT && m.tables[d][p2] != ABSENT;
    }
  }

  lemma FreshFrames(m: Mem, n: nat)
    requires Reserved(m.used) && Take(m.used, n).Some?
    ensures var fs := Take(m.used, n).value;
            && AllDistinct(fs) && forall f :: f in fs ==> FIRST_FRAME <= f && f % 2 == 0 && !m.used[f]
  {
    TakeDistinct(m.used, n);
  }

  // Pages below hi of one directory and n more frames: at most 376 in all.
  lemma RoomFor(m: Mem, live: set<TaskId>, sane: set<TaskId>, d: TaskId, hi: nat, n: nat)
    requires MemInv(m, live, sane) && d in sane && PAG_LOG_INIT_DATA <= hi <= TOTAL_PAGES
    requires forall p :: PAG_LOG_INIT_DATA <= p < hi ==> m.tables[d][p].present
    requires Take(m.used, n).Some?
    ensures hi - PAG_LOG_INIT_DATA + n <= 376
  {
    MappedFrames(m, live, sane, d, hi);
    FreshFrames(m, n);
    AtMost376(FramesOf(m.tables[d], PAG_LOG_INIT_DATA, hi) + Take(m.used, n).value);
  }

  lemma CoveredMapped(m: Mem, live: set<TaskId>, sane: set<TaskId>, d: TaskId)
    requires MemInv(m, live, sane) && d in live && Covered(m, d)
    ensures forall p :: PAG_LOG_INIT_DATA <= p < Pages(m.breaks[d]) ==> m.tables[d][p].present
    ensures PAG_LOG_INIT_HEAP <= Pages(m.breaks[d]) <= MAX_HEAP_END
  {
    assert UserTable(m.tables[d]);
  }

  // The heap never has more than 356 pages, and a growth that succeeds writes no entry above
  // page 639, far from the end of the table that the guard of sbrk would let it reach. That is
  // so also of a break of 0, from which a growth maps pages 0, 1, ...
  lemma GrowthStaysInTable(m: Mem, live: set<TaskId>, sane: set<TaskId>, d: TaskId, increment: int)
    requires MemInv(m, live, sane) && d in live && 0 < increment < TWO_31
    requires Covered(m, d) || m.breaks[d] == 0
    ensures HeapPages(m.breaks[d]) <= 356
    ensures Sbrk(m, d, increment).1 >= 0 ==>
              Pages(m.breaks[d] + increment) <= MAX_HEAP_END &&
              HeapPages(m.breaks[d] + increment) <= 356
  {
    hide Take, Sbrk;
    if m.breaks[d] != 0 { CoveredMapped(m, live, sane, d); }
    if Sbrk(m, d, increment).1 >= 0 {
      GrownMemory(m, d, increment);
      var hi := Pages(m.breaks[d]);
      var n := Pages(m.breaks[d] + increment) - hi;
      if m.breaks[d] == 0 {
        FreshFrames(m, n);
        AtMost376(Take(m.used, n).value);
      } else {
        RoomFor(m, live, sane, d, hi, n);
      }
    }
  }

  // A fork that succeeds has a father with at most 168 heap pages, so its window of 20 + heap
  // pages right above the heap ends at page 639 or below.
  lemma ForkWindowStaysInTable(m: Mem, live: set<TaskId>, sane: set<TaskId>, father: TaskId, child: TaskId)
    requires MemInv(m, live, sane) && father in live && Covered(m, father)
    requires Fork(m, father, child).1
    ensures HeapPages(m.breaks[father]) <= 168
    ensures Pages(m.breaks[father]) + NUM_PAG_DATA + HeapPages(m.breaks[father]) <= MAX_HEAP_END
  {
    CoveredMapped(m, live, sane, father);
    var hi := Pages(m.breaks[father]);
    RoomFor(m, live, sane, father, hi, hi - PAG_LOG_INIT_DATA);
  }

  /* Steps */

  // m' is m but for the frame map and directory d, where pages from `first` on got the frames
  // fs, which alloc_frame had just handed out.
  ghost predicate MappedAfresh(m: Mem, m': Mem, d: TaskId, first: nat, fs: seq<FrameNo>)
    requires MemShape(m) && MemShape(m')
  {
    && first >= PAG_LOG_INIT_DATA
    && Take(m.used, |fs|) == Some(fs) && m'.used == Mark(m.used, fs)
    && (forall e: TaskId :: e != d ==> m'.tables[e] == m.tables[e])
    && (forall p: PageNo :: p >= PAG_LOG_INIT_DATA ==>
          m'.tables[d][p] == if first <= p < first + |fs| then Entry(true, fs[p - first]) else m.tables[d][p])
  }

  predicate IsNew(d: TaskId, first: nat, n: nat, e: TaskId, p: PageNo) {
    e == d && first <= p < first + n
  }

  lemma NewOrOld(m: Mem, m': Mem, dirs: set<TaskId>, d: TaskId, first: nat, fs: seq<FrameNo>, e: TaskId, p: PageNo)
    requires MemShape(m) && MemShape(m') && OwnFrames(m, dirs) && Reserved(m.used)
    requires MappedAfresh(m, m', d, first, fs)
    requires e in dirs && p >= PAG_LOG_INIT_DATA && m'.tables[e][p] != ABSENT
    ensures Owned(m', m'.tables[e][p])
    ensures if IsNew(d, first, |fs|, e, p) then
              m'.tables[e][p].frame == fs[p - first] && !m.used[m'.tables[e][p].frame]
            else m'.tables[e][p] == m.tables[e][p] && m.used[m.tables[e][p].frame]
  {
    FreshFrames(m, |fs|);
    if IsNew(d, first, |fs|, e, p) {
      assert fs[p - first] in fs;
    } else {
      assert m'.tables[e][p] == m.tables[e][p];
      assert Owned(m, m.tables[e][p]);
    }
  }

  lemma MapFreshUnshared(m: Mem, m': Mem, dirs: set<TaskId>, d: TaskId, first: nat, fs: seq<FrameNo>)
    requires MemShape(m) && MemShape(m') && OwnFrames(m, dirs) && Unshared(m, dirs) && Reserved(m.used)
    requires MappedAfresh(m, m', d, first, fs)
    ensures Unshared(m', dirs)
  {
    FreshFrames(m, |fs|);
    forall d1: TaskId, p1: PageNo, d2: TaskId, p2: PageNo |
      && d1 in dirs && p1 >= PAG_LOG_INIT_DATA && m'.tables[d1][p1] != ABSENT
      && d2 in dirs && p2 >= PAG_LOG_INIT_DATA && m'.tables[d2][p2] != ABSENT
      && m'.tables[d1][p1].frame == m'.tables[d2][p2].frame
      ensures d1 == d2 && p1 == p2
    {
      NewOrOld(m, m', dirs, d, first, fs, d1, p1);
      NewOrOld(m, m', dirs, d, first, fs, d2, p2);
      hide MappedAfresh, Owned, OwnFrames, Reserved;
    }
  }

  lemma MapFresh(m: Mem, m': Mem, dirs: set<TaskId>, d: TaskId, first: nat, fs: seq<FrameNo>)
    requires MemShape(m) && MemShape(m') && OwnFrames(m, dirs) && Unshared(m, dirs) && Reserved(m.used)
    requires MappedAfresh(m, m', d, first, fs)
    ensures OwnFrames(m', dirs) && Unshared(m', dirs) && Reserved(m'.used)
  {
    FreshFrames(m, |fs|);
    MapFreshUnshared(m, m', dirs, d, first, fs);
    forall e: TaskId, p: PageNo | e in dirs && p >= PAG_LOG_INIT_DATA && m'.tables[e][p] != ABSENT
      ensures Owned(m', m'.tables[e][p])
    {
      NewOrOld(m, m', dirs, d, first, fs, e, p);
    }
  }

  // Directory d loses the pages lo .. hi - 1 and their frames become free.
  lemma UnmapOwn(m: Mem, m': Mem, live: set<TaskId>, sane: set<TaskId>, d: TaskId, lo: nat, hi: nat)
    requires MemInv(m, live, sane) && MemShape(m') && d in sane
    requires PAG_LOG_INIT_DATA <= lo <= hi <= TOTAL_PAGES
    requires m'.tables == m.tables[d := UnmapPages(m.tables[d], lo, hi)]
    requires m'.used == Release(m.used, FramesOf(m.tables[d], lo, hi))
    ensures OwnFrames(m', sane) && Unshared(m', sane) && Reserved(m'.used)
  {
    var fs := FramesOf(m.tables[d], lo, hi);
    forall f | f in fs ensures f == 0 || f >= FIRST_FRAME {
      var i :| 0 <= i < |fs| && fs[i] == f;
      var p: PageNo := lo + i;
      assert m.tables[d][p] != ABSENT ==> Owned(m, m.tables[d][p]);
    }
    forall e: TaskId, p: PageNo | e in sane && p >= PAG_LOG_INIT_DATA && m'.tables[e][p] != ABSENT
      ensures Owned(m', m'.tables[e][p])
    {
      var f := m.tables[e][p].frame;
      assert Owned(m, m.tables[e][p]);
      forall i | 0 <= i < |fs| ensures fs[i] != f {
        var q: PageNo := lo + i;
        assert m.tables[d][q] != ABSENT || fs[i] == 0;
      }
    }
  }

  lemma GrownMemory(m: Mem, d: TaskId, increment: int)
    requires MemShape(m) && m.breaks[d] <= RAM_SIZE
    requires 0 < increment < TWO_31 && Sbrk(m, d, increment).1 >= 0
    ensures var end := m.breaks[d] + increment; var n := Pages(end) - Pages(m.breaks[d]);
            && n >= 0 && Take(m.used, n).Some?
            && Sbrk(m, d, increment).0 == GrowWith(m, d, end, Take(m.used, n).value)
  {
    hide Take, GrowWith, Pages;
  }

  lemma GrowWithInv(m: Mem, live: set<TaskId>, sane: set<TaskId>, d: TaskId, end: nat, n: nat)
    requires MemShape(m) && MemInv(m, live, sane) && d in live && Take(m.used, n).Some?
    requires PAG_LOG_INIT_HEAP <= Pages(m.breaks[d]) && n == Pages(end) - Pages(m.breaks[d])
    requires HEAP_BASE <= end <= MAX_HEAP_END * PAGE_SIZE
    ensures MemInv(GrowWith(m, d, end, Take(m.used, n).value), live, sane)
  {
    hide Take, OwnFrames, Unshared, Reserved, UserTable, Pages;
    var fs := Take(m.used, n).value;
    var m' := GrowWith(m, d, end, fs);
    MapFresh(m, m', sane, d, Pages(m.breaks[d]), fs);
    UserTableKept(m.tables[d], m'.tables[d]);
  }

  lemma GrowInv(m: Mem, live: set<TaskId>, sane: set<TaskId>, d: TaskId, increment: int)
    requires MemShape(m) && MemInv(m, live, sane) && d in live && Covered(m, d)
    requires 0 < increment < TWO_31 && Sbrk(m, d, increment).1 >= 0
    ensures MemInv(Sbrk(m, d, increment).0, live, sane) && Covered(Sbrk(m, d, increment).0, d)
  {
    hide MemInv, Sbrk, Take, GrowWith;
    CoveredMapped(m, live, sane, d);
    GrowthStaysInTable(m, live, sane, d, increment);
    GrownMemory(m, d, increment);
    var end := m.breaks[d] + increment;
    var n := Pages(end) - Pages(m.breaks[d]);
    GrowWithInv(m, live, sane, d, end, n);
    GrowWithCovered(m, d, end, Take(m.used, n).value);
  }

  lemma GrowWithCovered(m: Mem, d: TaskId, end: nat, fs: seq<FrameNo>)
    requires MemShape(m) && Covered(m, d) && HEAP_BASE <= end < RAM_SIZE
    requires Pages(m.breaks[d]) + |fs| == Pages(end)
    ensures Covered(GrowWith(m, d, end, fs), d)
  {
  }

  lemma ShrinkInv(m: Mem, live: set<TaskId>, sane: set<TaskId>, d: TaskId, increment: int)
    requires MemInv(m, live, sane) && d in live && Covered(m, d)
    requires -TWO_31 <= increment < 0 && m.breaks[d] + increment >= 0
    ensures MemInv(Sbrk(m, d, increment).0, live, sane) && Covered(Sbrk(m, d, increment).0, d)
  {
    var m' := Sbrk(m, d, increment).0;
    var b := m.breaks[d];
    CoveredMapped(m, live, sane, d);
    UnmapOwn(m, m', live, sane, d, ShrinkFrom(b + increment), FreedEnd(b));
    UserTableKept(m.tables[d], m'.tables[d]);
  }

  lemma UserTableKept(t: Table, t': Table)
    requires UserTable(t) && forall p :: 0 <= p < PAG_LOG_INIT_HEAP ==> t'[p] == t[p]
    ensures UserTable(t')
  {
  }

  // Every sbrk of a covered heap keeps the invariant and the heap covered; a refused one changes
  // nothing, whatever the break.
  lemma SbrkInv(m: Mem, live: set<TaskId>, sane: set<TaskId>, d: TaskId, increment: int)
    requires MemShape(m) && MemInv(m, live, sane) && d in live && SbrkDefined(m.breaks[d], increment)
    requires Covered(m, d) || Sbrk(m, d, increment).1 < 0
    ensures MemInv(Sbrk(m, d, increment).0, live, sane)
    ensures Covered(m, d) ==> Covered(Sbrk(m, d, increment).0, d)
  {
    hide MemInv, Covered;
    if increment < 0 {
      ShrinkInv(m, live, sane, d, increment);
    } else if increment > 0 && Sbrk(m, d, increment).1 >= 0 {
      GrowInv(m, live, sane, d, increment);
    }
  }

  // Fork keeps it, and leaves the father covered. The window is cleared, so any page mapped
  // there before is lost to the father.
  lemma ForkInv(m: Mem, live: set<TaskId>, sane: set<TaskId>, father: TaskId, child: TaskId)
    requires MemShape(m) && MemInv(m, live, sane) && father in live && Covered(m, father)
    requires child in sane && child !in live
    ensures var (m', ok) := Fork(m, father, child);
            && (if ok then MemInv(m', live + {child}, sane) else MemInv(m', live, sane - {child}))
            && Covered(m', father)
  {
    if Fork(m, father, child).1 {
      GrantedForkInv(m, live, sane, father, child);
    } else {
      hide Take, FailedTable;
      FailedForkKeeps(m, Fork(m, father, child).0, sane, child);
    }
  }

  lemma GrantedForkInv(m: Mem, live: set<TaskId>, sane: set<TaskId>, father: TaskId, child: TaskId)
    requires MemShape(m) && MemInv(m, live, sane) && father in live && Covered(m, father)
    requires child in sane && child !in live && Fork(m, father, child).1
    ensures var m' := Fork(m, father, child).0;
            MemInv(m', live + {child}, sane) && Covered(m', father)
  {
    hide Take, CopyFrames, Fork, Pages, MemInv, UnmapPages, ChildTable, FramesOf, Mark;
    var hi := Pages(m.breaks[father]);
    CoveredMapped(m, live, sane, father);
    ForkGranted(m, father, child);
    ForkMaps(m, live, sane, father, child, hi - PAG_LOG_INIT_DATA);
    var m1 := MapChild(m, father, child, hi - PAG_LOG_INIT_DATA);
    var m' := Fork(m, father, child).0;
    ForkUnmaps(m1, m', live + {child}, sane, father, hi, hi + hi - PAG_LOG_INIT_DATA);
    UnmapAbove(m, m', father, hi, hi + hi - PAG_LOG_INIT_DATA);
  }

  lemma UnmapAbove(m: Mem, m': Mem, d: TaskId, lo: nat, hi: nat)
    requires MemShape(m) && Covered(m, d) && MemShape(m') && lo >= Pages(m.breaks[d])
    requires m'.breaks == m.breaks && m'.tables[d] == UnmapPages(m.tables[d], lo, hi)
    ensures Covered(m', d)
  {
  }

  // A fork halfway: the child's table is complete, the window is still to be used.
  function MapChild(m: Mem, father: TaskId, child: TaskId, n: nat): (m': Mem)
    requires MemShape(m) && Take(m.used, n).Some?
    ensures MemShape(m')
  {
    var fs := Take(m.used, n).value;
    SetTable(m, child, ChildTable(m.tables[child], m.tables[father], fs)).(used := Mark(m.used, fs))
  }

  lemma ForkMaps(m: Mem, live: set<TaskId>, sane: set<TaskId>, father: TaskId, child: TaskId, n: nat)
    requires MemInv(m, live, sane) && father in live && child in sane && child !in live
    requires Take(m.used, n).Some? && n >= NUM_PAG_DATA
    ensures MemInv(MapChild(m, father, child, n), live + {child}, sane)
  {
    hide Take, OwnFrames, Unshared, Reserved;
    var m' := MapChild(m, father, child, n);
    MapFresh(m, m', sane, child, PAG_LOG_INIT_DATA, Take(m.used, n).value);
    assert UserTable(m.tables[father]);
    assert UserTable(m'.tables[child]);
  }

  // Directory d loses the pages lo .. hi - 1; their frames, if any, stay in use.
  lemma ForkUnmaps(m: Mem, m': Mem, live: set<TaskId>, sane: set<TaskId>, d: TaskId, lo: nat, hi: nat)
    requires MemShape(m) && MemInv(m, live, sane) && MemShape(m') && lo >= PAG_LOG_INIT_HEAP
    requires m'.tables == m.tables[d := UnmapPages(m.tables[d], lo, hi)] && m'.used == m.used && m'.breaks == m.breaks
    ensures MemInv(m', live, sane)
  {
    forall e: TaskId, p: PageNo | e in sane && p >= PAG_LOG_INIT_DATA && m'.tables[e][p] != ABSENT
      ensures m'.tables[e][p] == m.tables[e][p] && Owned(m', m'.tables[e][p])
    {
      assert Owned(m, m.tables[e][p]);
    }
    if d in live { UserTableKept(m.tables[d], m'.tables[d]); }
  }

  lemma FailedForkKeeps(m: Mem, m': Mem, sane: set<TaskId>, child: TaskId)
    requires MemShape(m) && OwnFrames(m, sane) && Unshared(m, sane) && MemShape(m')
    requires m'.used == m.used && m'.tables == m.tables[child := m'.tables[child]]
    ensures OwnFrames(m', sane - {child}) && Unshared(m', sane - {child})
  {
    forall e: TaskId, p: PageNo | e in sane - {child} && p >= PAG_LOG_INIT_DATA && m'.tables[e][p] != ABSENT
      ensures Owned(m', m'.tables[e][p])
    {
      assert Owned(m, m.tables[e][p]);
    }
  }

  lemma FreeInv(m: Mem, live: set<TaskId>, sane: set<TaskId>, d: TaskId)
    requires MemInv(m, live, sane) && d in live
    ensures FreedEnd(m.breaks[d]) <= TOTAL_PAGES
    ensures MemInv(FreeUserPages(m, d), live - {d}, sane)
  {
    assert m.breaks[d] == 0 || HEAP_BASE <= m.breaks[d] <= MAX_HEAP_END * PAGE_SIZE;
    UnmapOwn(m, FreeUserPages(m, d), live, sane, d, PAG_LOG_INIT_DATA, FreedEnd(m.breaks[d]));
  }

  ghost predicate Holds(t: Table, f: FrameNo) {
    exists p: PageNo :: p >= PAG_LOG_INIT_DATA && t[p].present && t[p].frame == f
  }

  // All that the table maps of data and heap has been given back, and nothing else.
  ghost predicate GivenBack(u: FrameMap, u': FrameMap, t: Table) {
    forall f: FrameNo :: u'[f] <==> u[f] && !Holds(t, f)
  }

  // The end of a directory gives back its data and heap frames, no more and no less, and leaves
  // it without data and heap, if and only if nothing is mapped above the page of its break.
  lemma EndReturnsFrames(m: Mem, live: set<TaskId>, sane: set<TaskId>, d: TaskId)
    requires MemInv(m, live, sane) && d in live
    ensures FreedEnd(m.breaks[d]) <= TOTAL_PAGES
    ensures var m' := FreeUserPages(m, d); var low := Absent(m.tables[d], FreedEnd(m.breaks[d]), TOTAL_PAGES);
            && (Absent(m'.tables[d], PAG_LOG_INIT_DATA, TOTAL_PAGES) <==> low)
            && (GivenBack(m.used, m'.used, m.tables[d]) <==> low)
  {
    FreeInv(m, live, sane, d);
    var hi := FreedEnd(m.breaks[d]);
    if Absent(m.tables[d], hi, TOTAL_PAGES) {
      hide Holds, MemInv, Absent, FreedEnd;
      forall f: FrameNo
        ensures Holds(m.tables[d], f) <==> f > NUM_PAG_KERNEL && f in FramesOf(m.tables[d], PAG_LOG_INIT_DATA, hi)
      {
        FrameHeld(m, live, sane, d, hi, f);
      }
      EndClears(m.tables[d], hi);
    } else {
      FrameKept(m, live, sane, d, hi);
      EndClears(m.tables[d], hi);
    }
  }

  lemma EndClears(t: Table, hi: nat)
    requires hi >= PAG_LOG_INIT_DATA
    ensures Absent(UnmapPages(t, PAG_LOG_INIT_DATA, hi), PAG_LOG_INIT_DATA, TOTAL_PAGES)
            <==> Absent(t, hi, TOTAL_PAGES)
  {
    if !Absent(t, hi, TOTAL_PAGES) {
      var p :| hi <= p < TOTAL_PAGES && t[p] != ABSENT;
      assert UnmapPages(t, PAG_LOG_INIT_DATA, hi)[p] != ABSENT;
    }
  }

  // A frame mapped from page hi on is none of those below.
  lemma FrameKept(m: Mem, live: set<TaskId>, sane: set<TaskId>, d: TaskId, hi: nat)
    requires MemInv(m, live, sane) && d in sane
    requires PAG_LOG_INIT_HEAP <= hi <= TOTAL_PAGES && !Absent(m.tables[d], hi, TOTAL_PAGES)
    ensures !GivenBack(m.used, Release(m.used, FramesOf(m.tables[d], PAG_LOG_INIT_DATA, hi)), m.tables[d])
  {
    var t := m.tables[d];
    var p: PageNo :| hi <= p && t[p] != ABSENT;
    var f := t[p].frame;
    assert Owned(m, t[p]);
    assert Holds(t, f);
    var fs := FramesOf(t, PAG_LOG_INIT_DATA, hi);
    forall i | 0 <= i < |fs| ensures fs[i] != f {
      var q: PageNo := PAG_LOG_INIT_DATA + i;
      assert t[q] != ABSENT || fs[i] == 0;
    }
    assert Release(m.used, fs)[f];
  }

  lemma FrameHeld(m: Mem, live: set<TaskId>, sane: set<TaskId>, d: TaskId, hi: nat, f: FrameNo)
    requires MemInv(m, live, sane) && d in sane
    requires PAG_LOG_INIT_HEAP <= hi <= TOTAL_PAGES && Absent(m.tables[d], hi, TOTAL_PAGES)
    ensures Holds(m.tables[d], f) <==> f > NUM_PAG_KERNEL && f in FramesOf(m.tables[d], PAG_LOG_INIT_DATA, hi)
  {
    var t := m.tables[d];
    var fs := FramesOf(t, PAG_LOG_INIT_DATA, hi);
    if Holds(t, f) {
      var p: PageNo :| p >= PAG_LOG_INIT_DATA && t[p].present && t[p].frame == f;
      assert Owned(m, t[p]);
      assert fs[p - PAG_LOG_INIT_DATA] == f;
    }
    if f > NUM_PAG_KERNEL && f in fs {
      var i :| 0 <= i < |fs| && fs[i] == f;
      var p: PageNo := PAG_LOG_INIT_DATA + i;
      assert t[p] != ABSENT;
      assert Owned(m, t[p]);
    }
  }

  lemma WriteInv(m: Mem, live: set<TaskId>, sane: set<TaskId>, d: TaskId, page: nat, offset: nat, b: Byte)
    requires MemInv(m, live, sane) && Mapped(m, d, page) && offset < PAGE_SIZE
    ensures MemInv(Write(m, d, page, offset, b), live, sane)
  {
    var m' := Write(m, d, page, offset, b);
    forall e: TaskId, p: PageNo | e in sane && p >= PAG_LOG_INIT_DATA && m'.tables[e][p] != ABSENT
      ensures Owned(m', m'.tables[e][p])
    {
      assert Owned(m, m.tables[e][p]);
    }
  }

  function AllDirs(): set<TaskId> { {0, 1, 2, 3, 4, 5, 6, 7, 8, 9} }

  lemma BootMemInv(guard0: nat, guard1: nat, ram: Ram)
    ensures var m := BootMem(guard0, guard1, ram);
            MemInv(m, {2}, AllDirs()) && Exact(m, 2)
  {
    var m := BootMem(guard0, guard1, ram);
    assert UserTable(m.tables[2]);
    forall d: TaskId, p: PageNo | p >= PAG_LOG_INIT_DATA && m.tables[d][p] != ABSENT
      ensures d == 2 && m.tables[d][p] == Entry(true, BootFrame(p - PAG_LOG_INIT_CODE)) && Owned(m, m.tables[d][p])
    {
    }
    BootUsedReserved();
  }

  lemma BootUsedReserved()
    ensures Reserved(BootUsed())
  {
  }
}
