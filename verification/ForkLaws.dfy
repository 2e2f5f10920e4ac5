// What a fork gives the child: the father's memory as it was, in frames of its own.
module ForkLaws {
  import opened Layout
  import opened Frames
  import opened AddressSpaces
  import opened MemoryInvariants

  lemma CopyNothing(ram: Ram)
    ensures CopyFrames(ram, [], []) == ram
  {
  }

  lemma LastCopied(ram: Ram, src: seq<FrameNo>, dst: seq<FrameNo>)
    requires |src| == |dst| > 0
    ensures var k := |src| - 1;
            CopyFrames(ram, src, dst) == CopyFrame(CopyFrames(ram, src[..k], dst[..k]), src[k], dst[k])
  {
  }

  lemma {:induction false} UncopiedFrame(ram: Ram, src: seq<FrameNo>, dst: seq<FrameNo>, f: FrameNo)
    requires |src| == |dst| && f !in dst
    ensures Frame(CopyFrames(ram, src, dst), f) == Frame(ram, f)
  {
    hide CopyFrame, Frame, CopyFrames;
    if src == [] {
      CopyNothing(ram);
    } else {
      var k := |src| - 1;
      LastCopied(ram, src, dst);
      UncopiedFrame(ram, src[..k], dst[..k], f);
    }
  }

  lemma {:induction false} CopiedFrame(ram: Ram, src: seq<FrameNo>, dst: seq<FrameNo>, j: nat)
    requires |src| == |dst| && AllDistinct(dst) && j < |src| && forall f :: f in src ==> f !in dst
    ensures Frame(CopyFrames(ram, src, dst), dst[j]) == Frame(ram, src[j])
  {
    hide CopyFrame, Frame, CopyFrames;
    var k := |src| - 1;
    LastCopied(ram, src, dst);
    if j == k {
      assert src[k] in src;
      UncopiedFrame(ram, src[..k], dst[..k], src[k]);
    } else {
      assert dst[j] != dst[k];
      assert forall f :: f in src[..k] ==> f in src;
      CopiedFrame(ram, src[..k], dst[..k], j);
    }
  }

  // Copying to distinct frames outside the sources copies each source as it was, and nothing
  // else changes.
  lemma CopiedFrames(ram: Ram, src: seq<FrameNo>, dst: seq<FrameNo>)
    requires |src| == |dst| && AllDistinct(dst) && forall f :: f in src ==> f !in dst
    ensures forall k :: 0 <= k < |src| ==> Frame(CopyFrames(ram, src, dst), dst[k]) == Frame(ram, src[k])
    ensures forall f: FrameNo :: f !in dst ==> Frame(CopyFrames(ram, src, dst), f) == Frame(ram, f)
  {
    hide CopyFrame, Frame, CopyFrames, AllDistinct;
    forall k | 0 <= k < |src| ensures Frame(CopyFrames(ram, src, dst), dst[k]) == Frame(ram, src[k]) {
      CopiedFrame(ram, src, dst, k);
    }
    forall f: FrameNo | f !in dst ensures Frame(CopyFrames(ram, src, dst), f) == Frame(ram, f) {
      UncopiedFrame(ram, src, dst, f);
    }
  }

  // A fork succeeds exactly when as many even frames are free as the father has data and heap
  // pages; when it fails, frames, contents, breaks and all tables but the child's are untouched.
  lemma ForkAllOrNothing(m: Mem, father: TaskId, child: TaskId)
    requires MemShape(m) && HEAP_BASE <= m.breaks[father] <= RAM_SIZE
    ensures var (m', ok) := Fork(m, father, child);
            && (ok <==> Pages(m.breaks[father]) - PAG_LOG_INIT_DATA <= |FreeEvens(m.used)|)
            && (!ok ==> m' == SetTable(m, child, m'.tables[child]))
  {
    hide Take, FreeEvens, CopyFrames, Pages;
    TakeSucceeds(m.used, Pages(m.breaks[father]) - PAG_LOG_INIT_DATA);
  }

  // The tables after a fork into another directory. Granted: the father's loses as many pages above
  // his heap as the child gets, the child's stays as it was above those. Refused: the child's has the
  // father's heap frames too, so that they are mapped twice.
  lemma ForkTables(m: Mem, father: TaskId, child: TaskId, p: PageNo)
    requires MemShape(m) && HEAP_BASE <= m.breaks[father] <= RAM_SIZE && child != father
    ensures var (m', ok) := Fork(m, father, child); var t, c := m.tables[father], m.tables[child];
            var hi := Pages(m.breaks[father]); var window := hi + NUM_PAG_DATA + (hi - PAG_LOG_INIT_HEAP);
            && (ok ==>
                  && m'.tables[father][p] == (if hi <= p < window then ABSENT else t[p])
                  && (p < PAG_LOG_INIT_DATA ==> m'.tables[child][p] == Entry(true, t[p].frame))
                  && (p >= hi ==> m'.tables[child][p] == c[p]))
            && (!ok ==>
                  && m'.tables[father] == t
                  && m'.tables[child][p] == (if p < PAG_LOG_INIT_DATA || PAG_LOG_INIT_HEAP <= p < hi
                                             then Entry(true, t[p].frame) else c[p]))
            && (forall d: TaskId :: d != father && d != child ==> m'.tables[d] == m.tables[d])
  {
    hide Take, CopyFrames, Pages, Mark;
  }

  // A successful fork into another directory, spelt out.
  lemma ForkedIs(m: Mem, father: TaskId, child: TaskId)
    requires MemShape(m) && HEAP_BASE <= m.breaks[father] <= RAM_SIZE && Fork(m, father, child).1
    requires child != father
    ensures var m' := Fork(m, father, child).0; var hi := Pages(m.breaks[father]);
            var n := hi - PAG_LOG_INIT_DATA; var r := Take(m.used, n);
            && r.Some? && m'.used == Mark(m.used, r.value)
            && m'.tables == m.tables[child := ChildTable(m.tables[child], m.tables[father], r.value)]
                                    [father := UnmapPages(m.tables[father], hi, hi + n)]
            && m'.ram == CopyFrames(m.ram, FramesOf(m.tables[father], PAG_LOG_INIT_DATA, hi), r.value)
  {
    hide Take, ChildTable, CopyFrames, FramesOf, Pages, UnmapPages, Mark, Fork;
    ForkGranted(m, father, child);
  }

  lemma ChildFrames(child: Table, father: Table, fs: seq<FrameNo>)
    requires PAG_LOG_INIT_DATA + |fs| <= TOTAL_PAGES
    ensures FramesOf(ChildTable(child, father, fs), PAG_LOG_INIT_DATA, PAG_LOG_INIT_DATA + |fs|) == fs
  {
  }

  // The pages above his heap through which the father copies.
  function WindowEnd(m: Mem, father: TaskId): (p: int)
    requires MemShape(m)
  {
    Pages(m.breaks[father]) + NUM_PAG_DATA + HeapPages(m.breaks[father])
  }

  lemma ForkedTables(m: Mem, live: set<TaskId>, sane: set<TaskId>, father: TaskId, child: TaskId)
    requires MemShape(m) && MemInv(m, live, sane) && father in live && Covered(m, father) && child != father
    requires Fork(m, father, child).1
    ensures var m' := Fork(m, father, child).0; var hi := Pages(m.breaks[father]);
            var src := FramesOf(m.tables[father], PAG_LOG_INIT_DATA, hi);
            var dst := FramesOf(m'.tables[child], PAG_LOG_INIT_DATA, hi);
            && |src| == |dst| && AllDistinct(dst) && (forall f :: f in src ==> f !in dst)
            && (forall f :: f in dst ==> !m.used[f])
            && (forall f :: f in src ==> m.used[f])
            && m'.ram == CopyFrames(m.ram, src, dst)
            && 0 <= WindowEnd(m, father)
            && m'.tables[father] == UnmapPages(m.tables[father], hi, WindowEnd(m, father))
            && forall d: TaskId :: d != child && d != father ==> m'.tables[d] == m.tables[d]
  {
    hide Take, ChildTable, CopyFrames, FramesOf, Fork, AllDistinct, Pages, UnmapPages;
    var hi := Pages(m.breaks[father]);
    CoveredMapped(m, live, sane, father);
    ForkedIs(m, father, child);
    var fs := Take(m.used, hi - PAG_LOG_INIT_DATA).value;
    MappedFrames(m, live, sane, father, hi);
    FreshFrames(m, hi - PAG_LOG_INIT_DATA);
    ChildFrames(m.tables[child], m.tables[father], fs);
  }

  lemma FrameInUse(m: Mem, live: set<TaskId>, sane: set<TaskId>, d: TaskId, page: PageNo)
    requires MemInv(m, live, sane) && d in live && m.tables[d][page].present
    ensures m.used[m.tables[d][page].frame]
    ensures m.tables[d][page].frame >= FIRST_FRAME <==> page >= PAG_LOG_INIT_DATA
  {
    assert UserTable(m.tables[d]);
    if page >= PAG_LOG_INIT_DATA {
      assert Owned(m, m.tables[d][page]);
    } else if page >= PAG_LOG_INIT_CODE {
      var c := page - PAG_LOG_INIT_CODE;
      assert m.tables[d][PAG_LOG_INIT_CODE + c] == Entry(true, BootFrame(c));
    }
  }

  // After a successful fork the child has the father's kernel and code frames; its data and
  // heap pages are in frames that were free, and hold what the father's held at the call.
  lemma ForkFaithful(m: Mem, live: set<TaskId>, sane: set<TaskId>, father: TaskId, child: TaskId, page: PageNo)
    requires MemInv(m, live, sane) && father in live && Covered(m, father) && child != father
    requires Fork(m, father, child).1 && page < Pages(m.breaks[father])
    ensures var m' := Fork(m, father, child).0;
            && m'.tables[child][page].present
            && (page < PAG_LOG_INIT_DATA ==> m'.tables[child][page].frame == m.tables[father][page].frame)
            && (page >= PAG_LOG_INIT_DATA ==>
                  && Mapped(m, father, page) && !m.used[m'.tables[child][page].frame]
                  && View(m', child, page) == View(m, father, page))
  {
    var m' := Fork(m, father, child).0;
    CoveredMapped(m, live, sane, father);
    if page >= PAG_LOG_INIT_DATA {
      var hi := Pages(m.breaks[father]);
      var src := FramesOf(m.tables[father], PAG_LOG_INIT_DATA, hi);
      var dst := FramesOf(m'.tables[child], PAG_LOG_INIT_DATA, hi);
      ForkedTables(m, live, sane, father, child);
      CopiedFrames(m.ram, src, dst);
      var k := page - PAG_LOG_INIT_DATA;
      assert dst[k] == m'.tables[child][page].frame && dst[k] in dst;
      assert src[k] == m.tables[father][page].frame;
    }
  }

  // ... and nobody else notices: every live directory but the father keeps its table, the father
  // all of it but the window, and whatever they still map has the contents it had.
  lemma ForkUnnoticed(m: Mem, live: set<TaskId>, sane: set<TaskId>, father: TaskId, child: TaskId,
                      d: TaskId, page: PageNo)
    requires MemInv(m, live, sane) && father in live && Covered(m, father) && child !in live
    requires d in live && Mapped(m, d, page)
    ensures var (m', ok) := Fork(m, father, child); var hi := Pages(m.breaks[father]);
            && (forall p: PageNo ::
                  m'.tables[d][p] == if ok && d == father && hi <= p < WindowEnd(m, father) then ABSENT
                                     else m.tables[d][p])
            && (Mapped(m', d, page) ==> View(m', d, page) == View(m, d, page))
  {
    if Fork(m, father, child).1 {
      hide Fork, AllDistinct, CopyFrames, Frame;
      var m' := Fork(m, father, child).0;
      var hi := Pages(m.breaks[father]);
      CoveredMapped(m, live, sane, father);
      FrameInUse(m, live, sane, d, page);
      ForkedTables(m, live, sane, father, child);
      hide MemInv, Covered, Pages, FramesOf;
      var dst := FramesOf(m'.tables[child], PAG_LOG_INIT_DATA, hi);
      CopiedFrames(m.ram, FramesOf(m.tables[father], PAG_LOG_INIT_DATA, hi), dst);
    }
  }

  // A fork into another directory leaves a nearly exact heap nearly exact.
  lemma ForkNearlyExact(m: Mem, live: set<TaskId>, sane: set<TaskId>, father: TaskId, child: TaskId)
    requires MemShape(m) && MemInv(m, live, sane) && father in live && NearlyExact(m, father)
    requires child in sane && child !in live
    ensures NearlyExact(Fork(m, father, child).0, father)
  {
    var m' := Fork(m, father, child).0;
    MemoryInvariants.ForkInv(m, live, sane, father, child);
    ForkKeepsBreaks(m, father, child);
    if Fork(m, father, child).1 {
      ForkedTables(m, live, sane, father, child);
      hide Fork, MemInv, Covered, Pages;
      var hi := Pages(m.breaks[father]);
      forall p | Max(hi, PAG_LOG_INIT_HEAP + 1) <= p < TOTAL_PAGES ensures m'.tables[father][p] == ABSENT {}
    } else {
      hide Take, MemInv, Covered, Pages, FailedTable;
    }
  }

  /* Without a free directory */

  lemma {:induction false} CopyToItself(ram: Ram, fs: seq<FrameNo>)
    ensures CopyFrames(ram, fs, fs) == ram
  {
    if fs != [] {
      CopyToItself(ram, fs[..|fs| - 1]);
      var f := fs[|fs| - 1];
      assert CopyFrame(ram, f, f) == ram;
    }
  }

  lemma SharedForkIs(m: Mem, father: TaskId)
    requires MemShape(m) && HEAP_BASE <= m.breaks[father] <= RAM_SIZE && Fork(m, father, father).1
    ensures var hi := Pages(m.breaks[father]); var n := hi - PAG_LOG_INIT_DATA; var r := Take(m.used, n);
            var t := m.tables[father];
            && r.Some?
            && Fork(m, father, father).0
               == SetTable(m, father, UnmapPages(ChildTable(t, t, r.value), hi, hi + n)).(used := Mark(m.used, r.value))
  {
    hide Take, Fork, ChildTable, CopyFrames, FramesOf, Pages, UnmapPages, Mark;
    var hi := Pages(m.breaks[father]);
    var t := m.tables[father];
    ForkGranted(m, father, father);
    var fs := Take(m.used, hi - PAG_LOG_INIT_DATA).value;
    var t1 := ChildTable(t, t, fs);
    ChildFrames(t, t, fs);
    CopyToItself(m.ram, fs);
    assert m.tables[father := t1][father := UnmapPages(t1, hi, hi + |fs|)]
        == m.tables[father := UnmapPages(t1, hi, hi + |fs|)];
  }

  // When the child has the father's directory, the father's own data and heap pages get the new
  // frames before anything has been copied, and each is copied onto itself. He sees what those
  // frames happened to hold; the frames he had stay in use, and nobody maps them.
  lemma SharedForkLosesData(m: Mem, live: set<TaskId>, sane: set<TaskId>, father: TaskId, page: PageNo)
    requires MemShape(m) && MemInv(m, live, sane) && father in live && Covered(m, father)
    requires Fork(m, father, father).1 && PAG_LOG_INIT_DATA <= page < Pages(m.breaks[father])
    ensures var m' := Fork(m, father, father).0; var was := m.tables[father][page].frame;
            && Mapped(m', father, page) && !m.used[m'.tables[father][page].frame]
            && View(m', father, page) == Frame(m.ram, m'.tables[father][page].frame)
            && m'.used[was] && (forall e: TaskId :: e in sane ==> !Holds(m'.tables[e], was))
  {
    CoveredMapped(m, live, sane, father);
    SharedForkIs(m, father);
    hide Take, Fork, Frame;
    var hi := Pages(m.breaks[father]);
    var fs := Take(m.used, hi - PAG_LOG_INIT_DATA).value;
    var m' := Fork(m, father, father).0;
    var was := m.tables[father][page].frame;
    FreshFrames(m, |fs|);
    assert fs[page - PAG_LOG_INIT_DATA] in fs;
    assert Owned(m, m.tables[father][page]);
    forall e: TaskId, p: PageNo | e in sane && p >= PAG_LOG_INIT_DATA && m'.tables[e][p].present
      ensures m'.tables[e][p].frame != was
    {
      if e == father && p < hi {
        assert fs[p - PAG_LOG_INIT_DATA] in fs;
      } else {
        assert m'.tables[e][p] == m.tables[e][p];
      }
    }
  }

  // The father's table is as before, and so is all he sees.
  ghost predicate Survives(m: Mem, m': Mem, father: TaskId)
    requires MemShape(m) && MemShape(m')
  {
    && m'.tables[father] == m.tables[father]
    && (forall page: PageNo :: Mapped(m, father, page) ==> View(m', father, page) == View(m, father, page))
  }

  // A fork that gets its frames leaves the father his table and his memory if and only if it has
  // a directory for the child and nothing is mapped in the window.
  lemma FatherSurvivesExactly(m: Mem, live: set<TaskId>, sane: set<TaskId>, father: TaskId, child: TaskId)
    requires MemShape(m) && MemInv(m, live, sane) && father in live && Covered(m, father)
    requires Fork(m, father, child).1 && (child == father || child !in live)
    ensures Survives(m, Fork(m, father, child).0, father)
            <==> child != father && Absent(m.tables[father], Pages(m.breaks[father]), WindowEnd(m, father))
  {
    var m' := Fork(m, father, child).0;
    if child == father {
      CoveredMapped(m, live, sane, father);
      SharedForkLosesData(m, live, sane, father, PAG_LOG_INIT_DATA);
      FrameInUse(m, live, sane, father, PAG_LOG_INIT_DATA);
    } else {
      FrameInUseOfData(m, live, sane, father);
      forall page: PageNo | Mapped(m, father, page)
        ensures Mapped(m', father, page) ==> View(m', father, page) == View(m, father, page)
      {
        ForkUnnoticed(m, live, sane, father, child, father, page);
      }
      ForkUnnoticed(m, live, sane, father, child, father, PAG_LOG_INIT_DATA);
    }
  }

  lemma FrameInUseOfData(m: Mem, live: set<TaskId>, sane: set<TaskId>, d: TaskId)
    requires MemInv(m, live, sane) && d in live
    ensures Mapped(m, d, PAG_LOG_INIT_DATA)
  {
    assert UserTable(m.tables[d]);
  }

  // A store into a data or heap page is seen in that page of that directory and nowhere else.
  lemma WriteIsolated(m: Mem, live: set<TaskId>, sane: set<TaskId>, d: TaskId, page: PageNo,
                      offset: nat, b: Byte, e: TaskId, other: PageNo)
    requires MemInv(m, live, sane) && d in live && Mapped(m, d, page) && page >= PAG_LOG_INIT_DATA
    requires offset < PAGE_SIZE && e in live && Mapped(m, e, other)
    ensures var m' := Write(m, d, page, offset, b);
            View(m', e, other) == if e == d && other == page then View(m, d, page)[offset := b]
                                  else View(m, e, other)
  {
    var m' := Write(m, d, page, offset, b);
    var f := m.tables[d][page].frame;
    var g := m.tables[e][other].frame;
    FrameInUse(m, live, sane, d, page);
    FrameInUse(m, live, sane, e, other);
    if f == g {
      assert e == d && other == page by {
        assert m.tables[d][page] != ABSENT && m.tables[e][other] != ABSENT;
      }
    }
    assert View(m', e, other) == if f == g then View(m, d, page)[offset := b] else View(m, e, other);
  }

  // fork never writes the child's break. The child's heap is exact if and only if the break left
  // in its slot does not lie below the father's, what that adds is still mapped there from an
  // earlier child, and nothing is mapped above.
  lemma ChildExactExactly(m: Mem, live: set<TaskId>, sane: set<TaskId>, father: TaskId, child: TaskId)
    requires MemInv(m, live, sane) && father in live && Covered(m, father) && child != father
    requires Fork(m, father, child).1
    ensures var c := m.breaks[child]; var t := m.tables[child]; var hi := Pages(m.breaks[father]);
            Exact(Fork(m, father, child).0, child) <==>
            && HEAP_BASE <= c < RAM_SIZE && hi <= Pages(c)
            && (forall p :: hi <= p < Pages(c) ==> t[p].present) && Absent(t, Pages(c), TOTAL_PAGES)
  {
    hide Fork, Take, Exact, Absent;
    var m' := Fork(m, father, child).0;
    CoveredMapped(m, live, sane, father);
    hide MemInv, Covered, Pages;
    ForkedIs(m, father, child);
    ForkKeepsBreaks(m, father, child);
    var c := m.breaks[child];
    ExactMeans(m', child);
    if HEAP_BASE <= c < RAM_SIZE {
      LongerHeap(m.tables[child], m'.tables[child], Pages(m.breaks[father]), Pages(c));
    }
  }

  lemma ExactMeans(m: Mem, d: TaskId)
    requires MemShape(m)
    ensures Exact(m, d) <==>
            && HEAP_BASE <= m.breaks[d] < RAM_SIZE
            && (forall p :: PAG_LOG_INIT_HEAP <= p < Pages(m.breaks[d]) ==> m.tables[d][p].present)
            && Absent(m.tables[d], Pages(m.breaks[d]), TOTAL_PAGES)
  {
  }

  // Table t' has pages 284 to hi - 1 mapped and is t from there on.
  lemma LongerHeap(t: Table, t': Table, hi: nat, c: nat)
    requires PAG_LOG_INIT_HEAP <= hi <= TOTAL_PAGES && PAG_LOG_INIT_HEAP <= c <= TOTAL_PAGES
    requires forall p :: PAG_LOG_INIT_HEAP <= p < hi ==> t'[p].present
    requires forall p :: hi <= p < TOTAL_PAGES ==> t'[p] == t[p]
    ensures (forall p :: PAG_LOG_INIT_HEAP <= p < c ==> t'[p].present) && Absent(t', c, TOTAL_PAGES)
            <==> hi <= c && (forall p :: hi <= p < c ==> t[p].present) && Absent(t, c, TOTAL_PAGES)
  {
    if c < hi { assert t'[c].present; }
  }

  // Task 1's memory at boot.
  lemma FirstForkGranted(guard0: nat, guard1: nat, ram: Ram)
    ensures var m := BootMem(guard0, guard1, ram);
            && m.breaks[2] == HEAP_BASE && Covered(m, 2) && Absent(m.tables[2], PAG_LOG_INIT_HEAP, TOTAL_PAGES)
            && |FreeEvens(m.used)| == 356 && m.breaks[3] == 0
    ensures Pages(HEAP_BASE) == PAG_LOG_INIT_HEAP
  {
    BootMemInv(guard0, guard1, ram);
    BootFramesLeft();
  }

  // The first child after boot is not exact: its slot still has break 0.
  lemma FirstChildNotExact(guard0: nat, guard1: nat, ram: Ram)
    ensures var m := BootMem(guard0, guard1, ram);
            Exact(m, 2) && Fork(m, 2, 3).1 && !Exact(Fork(m, 2, 3).0, 3)
  {
    FirstForkGranted(guard0, guard1, ram);
    BootMemInv(guard0, guard1, ram);
    hide BootMem, Fork, MemInv, Take, FreeEvens, Covered;
    var m := BootMem(guard0, guard1, ram);
    ForkAllOrNothing(m, 2, 3);
    ChildExactExactly(m, {2}, AllDirs(), 2, 3);
  }

  lemma BootFramesLeft()
    ensures |FreeEvens(BootUsed())| == 356
  {
    EvensCount(312);
    assert FreeEvens(BootUsed()) == Evens(312);
  }

  // When the child's directory ends, the frame map is as before the fork if and only if the break
  // in its slot covers the heap it was given, and no page left there by an earlier child.
  lemma ForkThenEnd(m: Mem, live: set<TaskId>, sane: set<TaskId>, father: TaskId, child: TaskId)
    requires MemInv(m, live, sane) && father in live && Covered(m, father)
    requires child in sane && child !in live && Fork(m, father, child).1
    ensures var m' := Fork(m, father, child).0; var hi := Pages(m.breaks[father]); var end := FreedEnd(m.breaks[child]);
            && FreedEnd(m'.breaks[child]) == end <= TOTAL_PAGES
            && (FreeUserPages(m', child).used == m.used <==> end >= hi && Absent(m.tables[child], hi, end))
  {
    hide Fork, Take;
    var m' := Fork(m, father, child).0;
    CoveredMapped(m, live, sane, father);
    FreedEndInTable(m, live, sane, child);
    ForkedIs(m, father, child);
    ForkKeepsBreaks(m, father, child);
    var hi := Pages(m.breaks[father]);
    var fs := Take(m.used, hi - PAG_LOG_INIT_DATA).value;
    FreshFrames(m, |fs|);
    StaleOwned(m, live, sane, child, hi);
    hide MemInv, Covered, Pages, FreedEnd, UnmapPages, Release, Mark, FramesOf;
    ReturnedFrames(m.used, fs, m'.tables[child], FreedEnd(m.breaks[child]));
  }

  lemma FreedEndInTable(m: Mem, live: set<TaskId>, sane: set<TaskId>, d: TaskId)
    requires MemInv(m, live, sane)
    ensures PAG_LOG_INIT_HEAP <= FreedEnd(m.breaks[d]) <= TOTAL_PAGES
  {
    assert m.breaks[d] == 0 || HEAP_BASE <= m.breaks[d] <= MAX_HEAP_END * PAGE_SIZE;
  }

  lemma StaleOwned(m: Mem, live: set<TaskId>, sane: set<TaskId>, d: TaskId, lo: nat)
    requires MemInv(m, live, sane) && d in sane && lo >= PAG_LOG_INIT_DATA
    ensures forall p :: lo <= p < TOTAL_PAGES && m.tables[d][p] != ABSENT ==>
                          m.tables[d][p].frame > NUM_PAG_KERNEL && m.used[m.tables[d][p].frame]
  {
    forall p: PageNo | p >= lo && m.tables[d][p] != ABSENT
      ensures var f := m.tables[d][p].frame; f > NUM_PAG_KERNEL && m.used[f]
    {
      assert Owned(m, m.tables[d][p]);
    }
  }

  lemma ReturnedFrames(u: FrameMap, fs: seq<FrameNo>, t: Table, end: nat)
    requires PAG_LOG_INIT_DATA <= end <= TOTAL_PAGES && |fs| <= TOTAL_PAGES - PAG_LOG_INIT_DATA
    requires AllDistinct(fs) && forall f :: f in fs ==> f > NUM_PAG_KERNEL && !u[f]
    requires forall p :: PAG_LOG_INIT_DATA <= p < PAG_LOG_INIT_DATA + |fs| ==>
                           t[p] == Entry(true, fs[p - PAG_LOG_INIT_DATA])
    requires forall p :: PAG_LOG_INIT_DATA + |fs| <= p < TOTAL_PAGES && t[p] != ABSENT ==>
                           t[p].frame > NUM_PAG_KERNEL && u[t[p].frame]
    ensures Release(Mark(u, fs), FramesOf(t, PAG_LOG_INIT_DATA, end)) == u <==>
            end >= PAG_LOG_INIT_DATA + |fs| && Absent(t, PAG_LOG_INIT_DATA + |fs|, end)
  {
    var back := FramesOf(t, PAG_LOG_INIT_DATA, end);
    if end < PAG_LOG_INIT_DATA + |fs| {
      var f := fs[end - PAG_LOG_INIT_DATA];
      assert f in fs;
      assert f !in back;
    } else if Absent(t, PAG_LOG_INIT_DATA + |fs|, end) {
      forall f | f in fs ensures f in back {
        var i :| 0 <= i < |fs| && fs[i] == f;
        assert back[i] == f;
      }
      forall f | f in back ensures f in fs || f == 0 {
        var i :| 0 <= i < |back| && back[i] == f;
        assert t[PAG_LOG_INIT_DATA + i].frame == f;
      }
    } else {
      var p :| PAG_LOG_INIT_DATA + |fs| <= p < end && p < TOTAL_PAGES && t[p] != ABSENT;
      var f := t[p].frame;
      assert back[p - PAG_LOG_INIT_DATA] == f;
      assert Release(Mark(u, fs), back)[f] != u[f];
    }
  }
}
