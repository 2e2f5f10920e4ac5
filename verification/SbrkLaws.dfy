// The laws of sys_sbrk: when it succeeds, when the heap stays exact, and that growing
// composes and is undone by shrinking.
module SbrkLaws {
  import opened Layout
  import opened Frames
  import opened AddressSpaces
  import opened MemoryInvariants

  // The guard of sbrk on a growth: it admits end addresses up to and including page 1024.
  lemma GuardMeans(b: nat, increment: int)
    requires b <= RAM_SIZE && 0 <= increment < TWO_31
    ensures EndAddress(b, increment) == b + increment
    ensures EndInRange(b + increment) <==> HEAP_BASE <= b + increment < (TOTAL_PAGES + 1) * PAGE_SIZE
  {
  }

  // A growth as Grow behind that guard.
  function Growth(m: Mem, d: TaskId, increment: nat): (r: Option<Mem>)
    requires MemShape(m)
    ensures r.Some? ==> MemShape(r.value) && r.value.breaks[d] == m.breaks[d] + increment
  {
    var end := m.breaks[d] + increment;
    if HEAP_BASE <= end < (TOTAL_PAGES + 1) * PAGE_SIZE then Grow(m, d, end) else None
  }

  lemma SbrkIsGrowth(m: Mem, d: TaskId, increment: int)
    requires MemShape(m) && m.breaks[d] <= RAM_SIZE && 0 < increment < TWO_31
    ensures Sbrk(m, d, increment) == match Growth(m, d, increment)
                                     case None => (m, -ENOMEM)
                                     case Some(m') => (m', m.breaks[d])
  {
    hide Grow, EndInRange, EndAddress;
    GuardMeans(m.breaks[d], increment);
  }

  lemma GrowIs(m: Mem, d: TaskId, end: nat, n: nat)
    requires MemShape(m) && m.breaks[d] <= end && n == Pages(end) - Pages(m.breaks[d])
    ensures Grow(m, d, end) == match Take(m.used, n)
                               case None => None
                               case Some(fs) => Some(GrowWith(m, d, end, fs))
  {
    hide Take, GrowWith, Pages;
  }

  // Growth succeeds exactly when the end is in range and enough even frames are free; when it
  // does not, nothing has changed.
  lemma GrowthAllOrNothing(m: Mem, d: TaskId, increment: int)
    requires MemShape(m) && HEAP_BASE <= m.breaks[d] <= RAM_SIZE && 0 < increment < TWO_31
    ensures var (m', r) := Sbrk(m, d, increment); var end := m.breaks[d] + increment;
            && (r == m.breaks[d] <==>
                end < (TOTAL_PAGES + 1) * PAGE_SIZE && Pages(end) - Pages(m.breaks[d]) <= |FreeEvens(m.used)|)
            && (r != m.breaks[d] ==> r == -ENOMEM && m' == m)
  {
    hide Take, FreeEvens, GrowWith, Pages, Sbrk, Grow;
    var end := m.breaks[d] + increment;
    var n := Pages(end) - Pages(m.breaks[d]);
    SbrkIsGrowth(m, d, increment);
    GrowIs(m, d, end, n);
    TakeSucceeds(m.used, n);
  }

  // The answer of sbrk in the heap, for every increment it can be given: the break before the call,
  // exactly if the increment is not positive or its end is in range and the frames can be had; else
  // -ENOMEM and nothing has changed. So sbrk(0) tells the break.
  lemma SbrkAnswer(m: Mem, d: TaskId, increment: int)
    requires MemShape(m) && HEAP_BASE <= m.breaks[d] && SbrkDefined(m.breaks[d], increment)
    ensures var (m', r) := Sbrk(m, d, increment); var b := m.breaks[d]; var end := b + increment;
            && (r == b <==>
                increment <= 0 ||
                (end < (TOTAL_PAGES + 1) * PAGE_SIZE && Pages(end) - Pages(b) <= |FreeEvens(m.used)|))
            && (r != b ==> r == -ENOMEM && m' == m)
            && (increment == 0 ==> m' == m)
            && (r == b ==> m'.breaks == m.breaks[d := Max(end, HEAP_BASE)] && m'.ram == m.ram)
            && forall e: TaskId :: e != d ==> m'.tables[e] == m.tables[e]
  {
    hide Grow, GrowWith, Take, FreeEvens, Pages;
    var b := m.breaks[d];
    if increment == 0 {
      GuardMeans(b, 0);
      assert m.breaks[d := b] == m.breaks;
    } else if increment > 0 {
      GrowthAllOrNothing(m, d, increment);
      if Sbrk(m, d, increment).1 == b {
        GrownMemory(m, d, increment);
        GrownRest(m, d, b + increment, Take(m.used, Pages(b + increment) - Pages(b)).value);
      }
    } else {
      hide Sbrk, UnmapPages, Release, FramesOf;
      SbrkIsShrink(m, d, increment);
    }
  }

  lemma GrownRest(m: Mem, d: TaskId, end: nat, fs: seq<FrameNo>)
    requires MemShape(m)
    ensures var m' := GrowWith(m, d, end, fs);
            m'.breaks == m.breaks[d := end] && m'.ram == m.ram
            && forall e: TaskId :: e != d ==> m'.tables[e] == m.tables[e]
  {
    hide Mark, MapPages, Pages;
  }

  // A growth gives every page that the break has newly reached a frame that was free, and takes no
  // other frame.
  lemma GrowthPages(m: Mem, live: set<TaskId>, sane: set<TaskId>, d: TaskId, increment: int, p: PageNo, f: FrameNo)
    requires MemShape(m) && MemInv(m, live, sane) && d in live && Covered(m, d)
    requires 0 < increment < TWO_31 && Sbrk(m, d, increment).1 >= 0
    ensures var m' := Sbrk(m, d, increment).0; var t, t' := m.tables[d], m'.tables[d];
            var b := m.breaks[d]; var end := b + increment;
            && (if b <= p * PAGE_SIZE < end then t'[p].present && !m.used[t'[p].frame] && m'.used[t'[p].frame]
                else t'[p] == t[p])
            && (m'.used[f] <==> m.used[f] || exists q: PageNo :: b <= q * PAGE_SIZE < end && t'[q].frame == f)
  {
    hide Sbrk, Take, MemInv, Covered, Pages, Mark;
    GrowthStaysInTable(m, live, sane, d, increment);
    GrownMemory(m, d, increment);
    var b := m.breaks[d];
    var end := b + increment;
    var fs := Take(m.used, Pages(end) - Pages(b)).value;
    var t' := MapPages(m.tables[d], Pages(b), fs);
    PageBetween(b, end, p);
    if b <= p * PAGE_SIZE < end { assert fs[p - Pages(b)] in fs; }
    if f in fs {
      var i :| 0 <= i < |fs| && fs[i] == f;
      var q: PageNo := Pages(b) + i;
      PageBetween(b, end, q);
      assert t'[q].frame == f;
    }
    forall q: PageNo | b <= q * PAGE_SIZE < end && t'[q].frame == f ensures f in fs {
      PageBetween(b, end, q);
      assert fs[q - Pages(b)] in fs;
    }
  }

  lemma PageBetween(b: nat, end: nat, p: nat)
    ensures b <= p * PAGE_SIZE < end <==> Pages(b) <= p < Pages(end)
  {
  }

  // A shrink unmaps every page from the end up to that of the old break and frees its frame, and
  // no other. Below the heap an unaligned end spares page 284.
  lemma ShrinkPages(m: Mem, d: TaskId, increment: int, p: PageNo, f: FrameNo)
    requires MemShape(m) && increment < 0 && SbrkDefined(m.breaks[d], increment) && f > NUM_PAG_KERNEL
    ensures var m' := Sbrk(m, d, increment).0; var t, t' := m.tables[d], m'.tables[d];
            var b := m.breaks[d]; var end := b + increment;
            && (t'[p] == if Crossed(end, b, p) then ABSENT else t[p])
            && (m'.used[f] <==> m.used[f] && !exists q: PageNo :: Crossed(end, b, q) && t[q].frame == f)
  {
    hide Sbrk, UnmapPages, Release, FramesOf, Pages;
    SbrkIsShrink(m, d, increment);
    var b := m.breaks[d];
    var end := b + increment;
    var lo, hi := ShrinkFrom(end), FreedEnd(b);
    ShrunkFrom(b, end);
    CrossedMeans(end, b, p);
    var fs := FramesOf(m.tables[d], lo, hi);
    forall q: PageNo | Crossed(end, b, q) && m.tables[d][q].frame == f ensures f in fs {
      CrossedMeans(end, b, q);
      assert fs[q - lo] == f;
    }
    if f in fs {
      var i :| 0 <= i < |fs| && fs[i] == f;
      var q: PageNo := lo + i;
      CrossedMeans(end, b, q);
      assert Crossed(end, b, q) && m.tables[d][q].frame == f;
    }
  }

  // Page p is one that the break leaves on its way down from b to end.
  predicate Crossed(end: int, b: nat, p: PageNo) {
    && PAG_LOG_INIT_HEAP <= p <= b / PAGE_SIZE && end <= p * PAGE_SIZE
    && !(end < HEAP_BASE && end % PAGE_SIZE != 0 && p == PAG_LOG_INIT_HEAP)
  }

  lemma CrossedMeans(end: nat, b: nat, p: PageNo)
    requires HEAP_BASE <= b < RAM_SIZE && end <= b
    ensures Crossed(end, b, p) <==> ShrinkFrom(end) <= p < FreedEnd(b)
  {
  }

  // When the heap is exact after an sbrk of any covered heap: what the break had not covered must
  // have been mapped over by a growth, or unmapped by a shrink.
  lemma ExactAfterExactly(m: Mem, live: set<TaskId>, sane: set<TaskId>, d: TaskId, increment: int)
    requires MemInv(m, live, sane) && d in live && Covered(m, d) && SbrkDefined(m.breaks[d], increment)
    ensures var (m', r) := Sbrk(m, d, increment); var t := m.tables[d];
            var b := m.breaks[d]; var end := b + increment;
            Exact(m', d) <==>
            if r < 0 || increment == 0 then Exact(m, d)
            else if increment > 0 then Absent(t, Pages(end), TOTAL_PAGES)
            else Absent(t, FreedEnd(b), TOTAL_PAGES) &&
                 (end >= HEAP_BASE || end % PAGE_SIZE == 0 || t[PAG_LOG_INIT_HEAP] == ABSENT)
  {
    if increment < 0 {
      ExactAfterShrink(m, live, sane, d, increment);
    } else if increment > 0 && Sbrk(m, d, increment).1 >= 0 {
      ExactAfterGrowth(m, live, sane, d, increment);
    }
  }

  // From an exact heap: every sbrk that does not end unaligned below the heap keeps it exact,
  // growing or shrinking, whatever the alignment of the old and the new break; and one that does
  // loses track of page 284, unless that was not mapped.
  lemma SbrkExactness(m: Mem, live: set<TaskId>, sane: set<TaskId>, d: TaskId, increment: int)
    requires MemInv(m, live, sane) && d in live && Exact(m, d)
    requires SbrkDefined(m.breaks[d], increment)
    ensures Exact(Sbrk(m, d, increment).0, d) <==>
            var end := m.breaks[d] + increment;
            end >= HEAP_BASE || end % PAGE_SIZE == 0 || m.breaks[d] == HEAP_BASE
  {
    ExactAfterExactly(m, live, sane, d, increment);
    hide MemInv, Sbrk;
    assert m.breaks[d] > HEAP_BASE ==> m.tables[d][PAG_LOG_INIT_HEAP].present;
  }

  lemma ExactAfterGrowth(m: Mem, live: set<TaskId>, sane: set<TaskId>, d: TaskId, increment: int)
    requires MemShape(m) && MemInv(m, live, sane) && d in live && Covered(m, d)
    requires 0 < increment < TWO_31 && Sbrk(m, d, increment).1 >= 0
    ensures Exact(Sbrk(m, d, increment).0, d) <==> Absent(m.tables[d], Pages(m.breaks[d] + increment), TOTAL_PAGES)
  {
    hide MemInv, Covered, Take, Sbrk, Absent, Pages, MapPages;
    GrowInv(m, live, sane, d, increment);
    GrownBreak(m, live, sane, d, increment);
    GrownMemory(m, d, increment);
    var n := Pages(m.breaks[d] + increment) - Pages(m.breaks[d]);
    AbsentAbove(m.tables[d], Pages(m.breaks[d]), Take(m.used, n).value);
  }

  lemma ExactAfterShrink(m: Mem, live: set<TaskId>, sane: set<TaskId>, d: TaskId, increment: int)
    requires MemShape(m) && MemInv(m, live, sane) && d in live && Covered(m, d)
    requires increment < 0 && SbrkDefined(m.breaks[d], increment)
    ensures var t := m.tables[d]; var b := m.breaks[d]; var end := b + increment;
            Exact(Sbrk(m, d, increment).0, d) <==>
            Absent(t, FreedEnd(b), TOTAL_PAGES) &&
            (end >= HEAP_BASE || end % PAGE_SIZE == 0 || t[PAG_LOG_INIT_HEAP] == ABSENT)
  {
    var b := m.breaks[d];
    var end := b + increment;
    ShrinkInv(m, live, sane, d, increment);
    hide MemInv, Covered, Sbrk, Absent, Pages, UnmapPages, Release, FramesOf, FreedEnd, ShrinkFrom;
    SbrkIsShrink(m, d, increment);
    ShrunkFrom(b, end);
    AbsentBelow(m.tables[d], ShrinkFrom(end), FreedEnd(b), Pages(Max(end, HEAP_BASE)));
    OnePage(m.tables[d], Pages(Max(end, HEAP_BASE)), ShrinkFrom(end));
  }

  lemma SbrkIsShrink(m: Mem, d: TaskId, increment: int)
    requires MemShape(m) && increment < 0 && SbrkDefined(m.breaks[d], increment)
    ensures Sbrk(m, d, increment) == (Shrink(m, d, m.breaks[d] + increment), m.breaks[d])
  {
    hide Shrink, Grow, EndInRange;
  }

  lemma OnePage(t: Table, lo: nat, hi: nat)
    requires PAG_LOG_INIT_HEAP <= lo <= hi <= TOTAL_PAGES
    ensures lo == hi ==> Absent(t, lo, hi)
    ensures lo == PAG_LOG_INIT_HEAP && hi == lo + 1 ==> (Absent(t, lo, hi) <==> t[PAG_LOG_INIT_HEAP] == ABSENT)
  {
  }

  lemma AbsentAbove(t: Table, first: nat, fs: seq<FrameNo>)
    ensures Absent(MapPages(t, first, fs), first + |fs|, TOTAL_PAGES) <==> Absent(t, first + |fs|, TOTAL_PAGES)
  {
    var t' := MapPages(t, first, fs);
    assert forall p :: first + |fs| <= p < TOTAL_PAGES ==> t'[p] == t[p];
  }

  lemma AbsentBelow(t: Table, lo: nat, hi: nat, from: nat)
    requires from <= lo <= hi
    ensures Absent(UnmapPages(t, lo, hi), from, TOTAL_PAGES) <==> Absent(t, from, lo) && Absent(t, hi, TOTAL_PAGES)
  {
    var t' := UnmapPages(t, lo, hi);
    assert forall p :: from <= p < TOTAL_PAGES && (p < lo || hi <= p) ==> t'[p] == t[p];
  }

  // The pages between the new break and the lowest one unmapped: page 284 or none.
  lemma ShrunkFrom(b: nat, end: nat)
    requires HEAP_BASE <= b < RAM_SIZE && end < b
    ensures var from := Pages(Max(end, HEAP_BASE));
            && PAG_LOG_INIT_HEAP <= from <= ShrinkFrom(end) <= FreedEnd(b) <= TOTAL_PAGES
            && (end >= HEAP_BASE || end % PAGE_SIZE == 0 ==> from == ShrinkFrom(end))
            && (end < HEAP_BASE && end % PAGE_SIZE != 0 ==>
                  from == PAG_LOG_INIT_HEAP && ShrinkFrom(end) == PAG_LOG_INIT_HEAP + 1)
  {
  }

  // Every sbrk that is not refused leaves a nearly exact heap nearly exact.
  lemma SbrkNearlyExact(m: Mem, live: set<TaskId>, sane: set<TaskId>, d: TaskId, increment: int)
    requires MemShape(m) && MemInv(m, live, sane) && d in live && SbrkDefined(m.breaks[d], increment)
    requires NearlyExact(m, d)
    ensures NearlyExact(Sbrk(m, d, increment).0, d)
  {
    if increment == 0 {
      SbrkOfNothing(m, d);
    } else if Sbrk(m, d, increment).1 < 0 {
      SbrkRefused(m, d, increment);
    } else if increment < 0 {
      ShrinkNearlyExact(m, live, sane, d, increment);
    } else {
      GrowthNearlyExact(m, live, sane, d, increment);
    }
  }

  lemma ShrinkNearlyExact(m: Mem, live: set<TaskId>, sane: set<TaskId>, d: TaskId, increment: int)
    requires MemShape(m) && MemInv(m, live, sane) && d in live && SbrkDefined(m.breaks[d], increment)
    requires NearlyExact(m, d) && increment < 0
    ensures NearlyExact(Sbrk(m, d, increment).0, d)
  {
    NearlyExactMeans(m, d);
    hide MemInv, Covered, Sbrk, Absent, Pages, UnmapPages, Release, FramesOf, FreedEnd, ShrinkFrom;
    var end := m.breaks[d] + increment;
    ShrinkInv(m, live, sane, d, increment);
    SbrkIsShrink(m, d, increment);
    ShrunkFrom(m.breaks[d], end);
    AbsentFrom(m.tables[d], ShrinkFrom(end), FreedEnd(m.breaks[d]),
               Max(Pages(Max(end, HEAP_BASE)), PAG_LOG_INIT_HEAP + 1));
  }

  lemma GrowthNearlyExact(m: Mem, live: set<TaskId>, sane: set<TaskId>, d: TaskId, increment: int)
    requires MemShape(m) && MemInv(m, live, sane) && d in live && NearlyExact(m, d)
    requires 0 < increment < TWO_31 && Sbrk(m, d, increment).1 >= 0
    ensures NearlyExact(Sbrk(m, d, increment).0, d)
  {
    hide MemInv, Covered, Take, Sbrk, Absent, MapPages;
    var b := m.breaks[d];
    GrowInv(m, live, sane, d, increment);
    CoveredBreak(m, d);
    GrownMemory(m, d, increment);
    AbsentAbove(m.tables[d], Pages(b), Take(m.used, Pages(b + increment) - Pages(b)).value);
    AbsentMonotone(m.tables[d], Max(Pages(b), PAG_LOG_INIT_HEAP + 1), Pages(b + increment));
    assert Max(Pages(b + increment), PAG_LOG_INIT_HEAP + 1) == Pages(b + increment);
  }

  lemma CoveredBreak(m: Mem, d: TaskId)
    requires MemShape(m) && Covered(m, d)
    ensures HEAP_BASE <= m.breaks[d] < RAM_SIZE
  {
  }

  lemma SbrkOfNothing(m: Mem, d: TaskId)
    requires MemShape(m) && m.breaks[d] <= RAM_SIZE
    ensures Sbrk(m, d, 0).0 == m
  {
  }

  lemma SbrkRefused(m: Mem, d: TaskId, increment: int)
    requires MemShape(m) && SbrkDefined(m.breaks[d], increment) && Sbrk(m, d, increment).1 < 0
    ensures Sbrk(m, d, increment).0 == m
  {
    hide Grow, Shrink;
  }

  lemma AbsentMonotone(t: Table, lo: nat, hi: nat)
    requires Absent(t, lo, TOTAL_PAGES) && lo <= hi
    ensures Absent(t, hi, TOTAL_PAGES)
  {
  }

  lemma AbsentFrom(t: Table, lo: nat, hi: nat, from: nat)
    requires lo <= from && Absent(t, hi, TOTAL_PAGES)
    ensures Absent(UnmapPages(t, lo, hi), from, TOTAL_PAGES)
  {
  }

  // The table index in turn i of the loop of a shrink that starts at page ini.
  function PageVisited(ini: nat, i: nat): (p: nat) {
    UInt32(ini - i)
  }

  // Every index that loop uses, running for the unsigned 32-bit difference of the page
  // numbers, lies in the table.
  predicate ShrinkInTable(b: nat, increment: int)
  {
    var ini := b / PAGE_SIZE;
    var fin := Max(UInt32(b + increment) / PAGE_SIZE, PAG_LOG_INIT_HEAP);
    forall i :: 0 <= i < UInt32(ini - fin) ==> PageVisited(ini, i) < TOTAL_PAGES
  }

  // That is so exactly when the end address does not wrap below 0, as it always does from a
  // break of 0.
  lemma ShrinkInTableExactly(b: nat, increment: int)
    requires (b == 0 || HEAP_BASE <= b < RAM_SIZE) && -TWO_31 <= increment < 0
    ensures ShrinkInTable(b, increment) <==> b + increment >= 0
  {
    var ini := b / PAGE_SIZE;
    if b + increment < 0 {
      var fin := UInt32(b + increment) / PAGE_SIZE;
      assert UInt32(b + increment) == b + increment + TWO_32;
      assert UInt32(ini - fin) == ini - fin + TWO_32;
      assert PageVisited(ini, ini + 1) == TWO_32 - 1;
    }
  }

  // From a break of 0, which the directory of a child has, a shrink leaves the table, and a
  // growth either is refused or maps its frames from page 0 on, over the kernel.
  lemma SbrkFromZero(m: Mem, live: set<TaskId>, sane: set<TaskId>, d: TaskId, increment: int)
    requires MemInv(m, live, sane) && d in live && m.breaks[d] == 0
    requires -TWO_31 <= increment < TWO_31
    ensures increment < 0 ==> !ShrinkInTable(0, increment)
    ensures increment >= 0 ==>
              var (m', r) := Sbrk(m, d, increment);
              && (r == 0 <==> HEAP_BASE <= increment < (TOTAL_PAGES + 1) * PAGE_SIZE
                              && Pages(increment) <= |FreeEvens(m.used)|)
              && (r != 0 ==> r == -ENOMEM && m' == m)
              && (r == 0 <==> !UserTable(m'.tables[d]))
  {
    if increment < 0 {
      ShrinkInTableExactly(0, increment);
    } else if increment == 0 {
      GuardMeans(0, 0);
      SbrkNothing(m, d);
    } else {
      hide UserTable, Reserved, ShrinkInTable, Sbrk, FreeEvens, Pages;
      GrowthFromZero(m, d, increment);
    }
  }

  lemma GrowthFromZero(m: Mem, d: TaskId, increment: int)
    requires MemShape(m) && Reserved(m.used) && UserTable(m.tables[d]) && m.breaks[d] == 0
    requires 0 < increment < TWO_31
    ensures var (m', r) := Sbrk(m, d, increment);
            && (r == 0 <==> HEAP_BASE <= increment < (TOTAL_PAGES + 1) * PAGE_SIZE
                            && Pages(increment) <= |FreeEvens(m.used)|)
            && (r != 0 ==> r == -ENOMEM && m' == m)
            && (r == 0 <==> !UserTable(m'.tables[d]))
  {
    hide Take, FreeEvens, Sbrk, Grow, GrowWith, Reserved, UserTable, Pages;
    SbrkIsGrowth(m, d, increment);
    GrowIs(m, d, increment, Pages(increment));
    TakeSucceeds(m.used, Pages(increment));
    if Take(m.used, Pages(increment)).Some? {
      var fs := Take(m.used, Pages(increment)).value;
      FreshFrames(m, |fs|);
      assert fs[0] in fs;
      KernelMappedOver(m, d, increment, fs);
    }
  }

  lemma SbrkNothing(m: Mem, d: TaskId)
    requires MemShape(m) && m.breaks[d] <= RAM_SIZE && !EndInRange(EndAddress(m.breaks[d], 0))
    ensures Sbrk(m, d, 0) == (m, -ENOMEM)
  {
  }

  lemma KernelMappedOver(m: Mem, d: TaskId, end: nat, fs: seq<FrameNo>)
    requires MemShape(m) && m.breaks[d] == 0 && fs != [] && fs[0] >= FIRST_FRAME
    ensures !UserTable(GrowWith(m, d, end, fs).tables[d])
  {
    assert GrowWith(m, d, end, fs).tables[d][0].frame == fs[0];
  }

  lemma GrowWithTwice(m: Mem, d: TaskId, e1: nat, fa: seq<FrameNo>, e2: nat, fb: seq<FrameNo>)
    requires MemShape(m) && Pages(m.breaks[d]) + |fa| == Pages(e1)
    ensures GrowWith(GrowWith(m, d, e1, fa), d, e2, fb) == GrowWith(m, d, e2, fa + fb)
  {
    MapTwice(m.tables[d], Pages(m.breaks[d]), fa, fb);
    MarkTwice(m.used, fa, fb);
  }

  lemma GrowTwice(m: Mem, d: TaskId, e1: nat, e2: nat)
    requires MemShape(m) && m.breaks[d] <= e1 <= e2
    ensures Grow(m, d, e2) == if Grow(m, d, e1).None? then None else Grow(Grow(m, d, e1).value, d, e2)
  {
    hide Take, MapPages, Mark, GrowWith, Pages, Grow;
    var n1 := Pages(e1) - Pages(m.breaks[d]);
    var n2 := Pages(e2) - Pages(e1);
    GrowIs(m, d, e1, n1);
    GrowIs(m, d, e2, n1 + n2);
    TakeSum(m.used, n1, n2);
    if Take(m.used, n1).Some? {
      var fa := Take(m.used, n1).value;
      GrowWithUsed(m, d, e1, fa);
      GrowIs(GrowWith(m, d, e1, fa), d, e2, n2);
      if Take(Mark(m.used, fa), n2).Some? {
        GrowWithTwice(m, d, e1, fa, e2, Take(Mark(m.used, fa), n2).value);
      }
    }
  }

  lemma GrowWithUsed(m: Mem, d: TaskId, end: nat, fs: seq<FrameNo>)
    requires MemShape(m)
    ensures GrowWith(m, d, end, fs).used == Mark(m.used, fs)
  {
  }

  lemma GrowthTwice(m: Mem, d: TaskId, a: nat, b: nat)
    requires MemShape(m) && m.breaks[d] >= HEAP_BASE
    ensures Growth(m, d, a + b) == if Growth(m, d, a).None? then None else Growth(Growth(m, d, a).value, d, b)
  {
    hide Grow;
    GrowTwice(m, d, m.breaks[d] + a, m.breaks[d] + a + b);
  }

  // Growing by a and then by b does what growing by a + b does: it succeeds when that does,
  // and then leaves the same tables, frame map and break.
  lemma GrowthComposes(m: Mem, live: set<TaskId>, sane: set<TaskId>, d: TaskId, a: int, b: int)
    requires MemShape(m) && MemInv(m, live, sane) && d in live && Covered(m, d)
    requires 0 < a && 0 < b && a + b < TWO_31
    ensures var (m1, r1) := Sbrk(m, d, a);
            var (m3, r3) := Sbrk(m, d, a + b);
            (r1 >= 0 ==> HEAP_BASE <= m1.breaks[d] < RAM_SIZE) &&
            (r3 >= 0 <==> r1 >= 0 && Sbrk(m1, d, b).1 >= 0) &&
            (r3 >= 0 ==> Sbrk(m1, d, b).0 == m3)
  {
    hide Sbrk, MemInv, Growth, Covered;
    GrownBreak(m, live, sane, d, a);
    GrowthTwice(m, d, a, b);
    SbrkIsGrowth(m, d, a);
    SbrkIsGrowth(m, d, a + b);
    if Sbrk(m, d, a).1 >= 0 { SbrkIsGrowth(Sbrk(m, d, a).0, d, b); }
  }

  lemma GrownBreak(m: Mem, live: set<TaskId>, sane: set<TaskId>, d: TaskId, a: int)
    requires MemShape(m) && MemInv(m, live, sane) && d in live && Covered(m, d) && 0 < a < TWO_31
    ensures HEAP_BASE <= m.breaks[d] < RAM_SIZE
    ensures Sbrk(m, d, a).1 >= 0 ==> HEAP_BASE <= Sbrk(m, d, a).0.breaks[d] < RAM_SIZE
  {
    GrowthStaysInTable(m, live, sane, d, a);
    SbrkIsGrowth(m, d, a);
    hide Sbrk, MemInv, Growth;
  }

  lemma MapTwice(t: Table, first: nat, a: seq<FrameNo>, b: seq<FrameNo>)
    ensures MapPages(MapPages(t, first, a), first + |a|, b) == MapPages(t, first, a + b)
  {
  }

  // The pages from the old break on, mapped and unmapped again.
  lemma UnmapMapped(t: Table, first: nat, fs: seq<FrameNo>, hi: nat)
    requires first + |fs| <= hi <= TOTAL_PAGES
    ensures UnmapPages(MapPages(t, first, fs), first, hi) == t <==> Absent(t, first, hi)
    ensures Absent(t, first, hi) ==>
              forall f: FrameNo :: f in FramesOf(MapPages(t, first, fs), first, hi) <==>
                                   f in fs || (f == 0 && first + |fs| < hi)
  {
    var t1 := MapPages(t, first, fs);
    var t2 := UnmapPages(t1, first, hi);
    assert Absent(t, first, hi) ==> t2 == t;
    assert t2 == t ==> forall p :: first <= p < hi ==> t2[p] == t[p];
    if Absent(t, first, hi) { MappedThere(t, first, fs, hi); }
  }

  lemma MappedThere(t: Table, first: nat, fs: seq<FrameNo>, hi: nat)
    requires first + |fs| <= hi <= TOTAL_PAGES && Absent(t, first, hi)
    ensures forall f: FrameNo :: f in FramesOf(MapPages(t, first, fs), first, hi) <==>
                                 f in fs || (f == 0 && first + |fs| < hi)
  {
    var back := FramesOf(MapPages(t, first, fs), first, hi);
    forall i | 0 <= i < |back| ensures back[i] == if i < |fs| then fs[i] else 0 {}
    forall f: FrameNo ensures f in back <==> f in fs || (f == 0 && |fs| < |back|) {
      if f in fs {
        var i :| 0 <= i < |fs| && fs[i] == f;
        assert back[i] == f;
      } else if f == 0 && |fs| < |back| {
        assert back[|fs|] == f;
      }
    }
  }

  lemma ReleasedAgain(u: FrameMap, fs: seq<FrameNo>, back: seq<FrameNo>)
    requires forall f :: f in fs ==> NUM_PAG_KERNEL < f && !u[f]
    requires forall f: FrameNo :: f in back ==> f in fs || f == 0
    requires forall f: FrameNo :: f in fs ==> f in back
    ensures Release(Mark(u, fs), back) == u
  {
  }

  // Lowering the break to where it was before the growth by the frames fs restores everything if
  // and only if the pages concerned were not mapped before.
  lemma ShrinkGrown(m: Mem, d: TaskId, end: nat, fs: seq<FrameNo>)
    requires MemShape(m) && HEAP_BASE <= m.breaks[d] <= end < RAM_SIZE
    requires Pages(m.breaks[d]) + |fs| == Pages(end)
    requires forall f :: f in fs ==> NUM_PAG_KERNEL < f && !m.used[f]
    ensures Shrink(GrowWith(m, d, end, fs), d, m.breaks[d]) == m
            <==> Absent(m.tables[d], Pages(m.breaks[d]), FreedEnd(end))
  {
    var b := m.breaks[d];
    var t := m.tables[d];
    var hi := FreedEnd(end);
    assert Pages(b) + |fs| <= hi <= TOTAL_PAGES && ShrinkFrom(b) == Pages(b);
    hide Release, Mark, UnmapPages, MapPages, FramesOf, Pages, FreedEnd, ShrinkFrom, Absent;
    UnmapMapped(t, Pages(b), fs, hi);
    var m2 := Shrink(GrowWith(m, d, end, fs), d, b);
    assert m2.tables[d] == UnmapPages(MapPages(t, Pages(b), fs), Pages(b), hi);
    if Absent(t, Pages(b), hi) {
      ReleasedAgain(m.used, fs, FramesOf(MapPages(t, Pages(b), fs), Pages(b), hi));
      assert m.tables[d := t] == m.tables && m.breaks[d := b] == m.breaks;
    }
  }

  lemma GrowThenShrink(m: Mem, d: TaskId, end: nat)
    requires MemShape(m) && Reserved(m.used) && HEAP_BASE <= m.breaks[d] <= end < RAM_SIZE
    requires Grow(m, d, end).Some?
    ensures Shrink(Grow(m, d, end).value, d, m.breaks[d]) == m
            <==> Absent(m.tables[d], Pages(m.breaks[d]), FreedEnd(end))
  {
    hide Take, Shrink, GrowWith, Pages, Grow, Absent, FreedEnd;
    var n := Pages(end) - Pages(m.breaks[d]);
    GrowIs(m, d, end, n);
    FreshFrames(m, n);
    ShrinkGrown(m, d, end, Take(m.used, n).value);
  }

  lemma GrowthShrunk(m: Mem, live: set<TaskId>, sane: set<TaskId>, d: TaskId, n: int)
    requires MemShape(m) && MemInv(m, live, sane) && d in live && Covered(m, d)
    requires 0 < n && m.breaks[d] + n < RAM_SIZE && Growth(m, d, n).Some?
    ensures Shrink(Growth(m, d, n).value, d, m.breaks[d]) == m
            <==> Absent(m.tables[d], Pages(m.breaks[d]), FreedEnd(m.breaks[d] + n))
  {
    hide Grow, Shrink, Pages, FreedEnd, Absent;
    GrowThenShrink(m, d, m.breaks[d] + n);
  }

  // A successful sbrk(n) followed by sbrk(-n) restores everything if and only if no page from the
  // break up to the page of the new break was mapped, as in an exact heap.
  lemma GrowthUndone(m: Mem, live: set<TaskId>, sane: set<TaskId>, d: TaskId, n: int)
    requires MemShape(m) && MemInv(m, live, sane) && d in live && Covered(m, d)
    requires 0 < n < TWO_31 && Sbrk(m, d, n).1 >= 0
    ensures var m1 := Sbrk(m, d, n).0; var b := m.breaks[d];
            && HEAP_BASE <= m1.breaks[d] < RAM_SIZE && m1.breaks[d] == b + n
            && (Sbrk(m1, d, -n).0 == m <==> Absent(m.tables[d], Pages(b), FreedEnd(b + n)))
  {
    hide MemInv, Growth, Shrink, Sbrk, Covered, Absent, Pages, FreedEnd;
    GrownBreak(m, live, sane, d, n);
    SbrkIsGrowth(m, d, n);
    GrowthShrunk(m, live, sane, d, n);
    SbrkIsShrink(Growth(m, d, n).value, d, -n);
  }
}
