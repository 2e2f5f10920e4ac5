// mm.c and the memory half of sys_fork, sys_sbrk and sys_exit: arrays updated in place. Each
// method is proved to do to the abstract memory what AddressSpaces prescribes; that no index
// leaves a page table is part of the proof.
module MemoryManager {
  import opened Layout
  import opened Frames
  import opened AddressSpaces
  import opened MemoryInvariants
  import opened MemCopy

  class MemoryManager {
    const physMem: array<bool>      // phys_mem
    const table: array<Table>       // pagusr_table; a PT pointer is an index here
    const breaks: array<nat>        // programbreak_table
    const ram: array<Byte>          // the frames themselves

    ghost predicate Valid()
    {
      physMem.Length == TOTAL_PAGES && table.Length == NR_TASKS &&
      breaks.Length == NR_TASKS && ram.Length == RAM_SIZE
    }

    ghost function Used(): (u: FrameMap)
      requires Valid()
      reads physMem
    {
      physMem[..]
    }

    ghost function Abs(): (m: Mem)
      requires Valid()
      reads physMem, table, breaks, ram
      ensures MemShape(m)
    {
      Mem(Used(), table[..], breaks[..], ram[..])
    }

    /* Frames */

    // alloc_frame
    method AllocFrame() returns (f: int)
      requires Valid()
      modifies physMem
      ensures var g := FirstFit(old(Used()), NUM_PAG_KERNEL);
              if g == TOTAL_PAGES then f == -1 && Used() == old(Used())
              else f == g && Used() == old(Used())[g := true]
    {
      hide FirstFit;
      ghost var u := Used();
      var i := NUM_PAG_KERNEL;
      while i < TOTAL_PAGES
        invariant NUM_PAG_KERNEL <= i <= TOTAL_PAGES && i % 2 == 0
        invariant Used() == u && FirstFit(u, NUM_PAG_KERNEL) == FirstFit(u, i)
        decreases TOTAL_PAGES - i
      {
        FirstFitStep(u, i);
        if !physMem[i] {
          physMem[i] := true;
          return i;
        }
        i := i + 2;
      }
      f := -1;
    }

    // free_frame
    method ReleaseFrame(f: FrameNo)
      requires Valid()
      modifies physMem
      ensures Used() == FreeFrame(old(Used()), f)
    {
      if f > NUM_PAG_KERNEL && f < TOTAL_PAGES { physMem[f] := false; }
    }

    method ReleaseAll(pages: seq<FrameNo>)
      requires Valid()
      modifies physMem
      ensures Used() == Release(old(Used()), pages)
    {
      hide Release;
      ghost var u := Used();
      ReleaseNothing(u);
      for j := 0 to |pages|
        invariant Used() == Release(u, pages[..j])
      {
        ReleaseOneMore(u, pages[..j], pages[j]);
        assert pages[..j + 1] == pages[..j] + [pages[j]];
        ReleaseFrame(pages[j]);
      }
      assert pages[..|pages|] == pages;
    }

    // The allocation loop of sys_fork and sys_sbrk with its way back. That free_frame ignores
    // frame 256 does no harm because that frame is in use.
    method AllocFrames(n: nat) returns (ok: bool, pages: seq<FrameNo>)
      requires Valid() && physMem[NUM_PAG_KERNEL]
      modifies physMem
      ensures Take(old(Used()), n).None? ==> !ok && Used() == old(Used())
      ensures Take(old(Used()), n).Some? ==>
                && ok && pages == Take(old(Used()), n).value
                && Used() == Mark(old(Used()), pages)
    {
      hide Take, Mark, Release;
      ghost var u := Used();
      pages := [];
      TakeNothing(u);
      for i := 0 to n
        invariant Take(u, i) == Some(pages) && Used() == Mark(u, pages)
      {
        TakeUnfold(u, i + 1);
        var f := AllocFrame();
        if f < 0 {
          TakeFails(u, i + 1, n);
          ReleaseAll(pages);
          ReleaseMarked(u, pages);
          return false, [];
        }
        MarkOneMore(u, pages, f);
        pages := pages + [f];
      }
      ok := true;
    }

    /* Page table entries */

    method SetSsPag(d: TaskId, page: nat, frame: FrameNo)
      requires Valid() && page < TOTAL_PAGES
      modifies table
      ensures table[..] == old(table[..])[d := old(table[d])[page := Entry(true, frame)]]
    {
      ghost var t := table[d];
      table[d] := table[d][page := ABSENT];
      table[d] := table[d][page := Entry(true, frame)];
      assert table[d] == t[page := Entry(true, frame)];
    }

    method DelSsPag(d: TaskId, page: nat)
      requires Valid() && page < TOTAL_PAGES
      modifies table
      ensures table[..] == old(table[..])[d := old(table[d])[page := ABSENT]]
    {
      table[d] := table[d][page := ABSENT];
    }

    method GetFrame(d: TaskId, page: nat) returns (f: FrameNo)
      requires Valid() && page < TOTAL_PAGES
      ensures f == table[d][page].frame
    {
      f := table[d][page].frame;
    }

    // free_frame and del_ss_pag of one page
    method UnmapOne(d: TaskId, page: nat)
      requires Valid() && page < TOTAL_PAGES
      modifies physMem, table
      ensures table[..] == old(table[..])[d := old(table[d])[page := ABSENT]]
      ensures Used() == FreeFrame(old(Used()), old(table[d])[page].frame)
    {
      var f := GetFrame(d, page);
      ReleaseFrame(f);
      DelSsPag(d, page);
    }

    /* sbrk */

    // The second loop of a growth.
    method MapRange(d: TaskId, first: nat, pages: seq<FrameNo>)
      requires Valid() && first + |pages| <= TOTAL_PAGES
      modifies table
      ensures table[..] == old(table[..])[d := MapPages(old(table[d]), first, pages)]
    {
      hide MapPages;
      ghost var ts := table[..];
      NothingMapped(ts[d], first);
      for i := 0 to |pages|
        invariant table[..] == ts[d := MapPages(ts[d], first, pages[..i])]
      {
        SetSsPag(d, first + i, pages[i]);
        MapOneMore(ts[d], first, pages, i);
      }
      assert pages[..|pages|] == pages;
    }

    // The loop of a shrink: n pages from ini down.
    method UnmapDown(d: TaskId, ini: nat, n: nat)
      requires Valid() && n <= ini + 1 <= TOTAL_PAGES
      modifies physMem, table
      ensures table[..] == old(table[..])[d := UnmapPages(old(table[d]), ini + 1 - n, ini + 1)]
      ensures Used() == Release(old(Used()), FramesOf(old(table[d]), ini + 1 - n, ini + 1))
    {
      hide FramesOf, Release, UnmapPages, FreeFrame;
      ghost var u := Used();
      ghost var ts := table[..];
      NothingUnmapped(u, ts[d], ini + 1);
      for i := 0 to n
        invariant table[..] == ts[d := UnmapPages(ts[d], ini + 1 - i, ini + 1)]
        invariant Used() == Release(u, FramesOf(ts[d], ini + 1 - i, ini + 1))
      {
        UnmapOne(d, ini - i);
        UnmapOneMore(u, ts[d], ini - i, ini + 1);
      }
    }

    // How many pages a growth from b to end needs, and from which, as sys_sbrk works it out
    // from the alignment of the two, in unsigned arithmetic.
    static method PagesToMap(b: nat, end: nat) returns (npages: nat, tpentry: nat)
      requires b < end < (TOTAL_PAGES + 1) * PAGE_SIZE
      ensures tpentry == Pages(b) && npages == Pages(end) - Pages(b)
    {
      var ini := b / PAGE_SIZE;
      npages := UInt32(end / PAGE_SIZE - ini);
      tpentry := ini + 1;
      if b % PAGE_SIZE == 0 {
        npages := UInt32(npages + 1);
        tpentry := tpentry - 1;
      }
      if end % PAGE_SIZE == 0 { npages := UInt32(npages - 1); }
    }

    // The branch of sys_sbrk for increment > 0.
    method GrowHeap(d: TaskId, end: nat) returns (ok: bool)
      requires Valid() && breaks[d] < end < (TOTAL_PAGES + 1) * PAGE_SIZE && physMem[NUM_PAG_KERNEL]
      requires Take(Used(), Pages(end) - Pages(breaks[d])).Some? ==> Pages(end) <= TOTAL_PAGES
      modifies physMem, table
      ensures var r := Take(old(Used()), Pages(end) - Pages(breaks[d]));
              if r.None? then !ok && Used() == old(Used()) && table[..] == old(table[..])
              else && ok && Used() == Mark(old(Used()), r.value)
                   && table[..] == old(table[..])[d := MapPages(old(table[d]), Pages(breaks[d]), r.value)]
    {
      hide Take, MapPages, Mark, Pages;
      var npages, tpentry := PagesToMap(breaks[d], end);
      var pages: seq<FrameNo>;
      ok, pages := AllocFrames(npages);
      if ok { MapRange(d, tpentry, pages); }
    }

    // The branch of sys_sbrk for increment < 0; `below` tells that the end is under the heap.
    method ShrinkHeap(d: TaskId, end: nat) returns (below: bool)
      requires Valid() && HEAP_BASE <= breaks[d] < RAM_SIZE && end < breaks[d]
      modifies physMem, table
      ensures below <==> end < HEAP_BASE
      ensures var lo := ShrinkFrom(end); var hi := FreedEnd(breaks[d]);
              && Used() == Release(old(Used()), FramesOf(old(table[d]), lo, hi))
              && table[..] == old(table[..])[d := UnmapPages(old(table[d]), lo, hi)]
    {
      hide UnmapPages, Release, FramesOf, FreeFrame, ShrinkFrom, FreedEnd;
      ShrinkShape(Used(), table[d], breaks[d], end);
      var ini := breaks[d] / PAGE_SIZE;
      var fin := end / PAGE_SIZE;
      below := false;
      if fin < PAG_LOG_INIT_HEAP {
        fin := PAG_LOG_INIT_HEAP;
        below := true;
      }
      var npages := UInt32(ini - fin);
      assert fin == Max(end / PAGE_SIZE, PAG_LOG_INIT_HEAP);
      UnmapDown(d, ini, npages);
      if end % PAGE_SIZE == 0 { UnmapOne(d, fin); }
    }

    // sys_sbrk, from a covered heap, from a break of 0, or refused. That a growth from 0 stays in
    // the table does not make it harmless (SbrkLaws.SbrkFromZero).
    method SysSbrk(d: TaskId, increment: int, ghost live: set<TaskId>, ghost sane: set<TaskId>) returns (ret: int)
      requires Valid() && MemInv(Abs(), live, sane) && d in live
      requires SbrkDefined(breaks[d], increment)
      requires Covered(Abs(), d) || breaks[d] == 0 || Sbrk(Abs(), d, increment).1 < 0
      modifies physMem, table, breaks
      ensures (Abs(), ret) == Sbrk(old(Abs()), d, increment)
    {
      hide MemInv, Covered, Take, MapPages, Mark, UnmapPages, Release, FramesOf, ShrinkFrom, FreedEnd, Pages;
      SbrkFits(Abs(), live, sane, d);
      var end := UInt32(breaks[d] + increment);
      if increment >= 0 && (Int32(end) / PAGE_SIZE < PAG_LOG_INIT_HEAP || Int32(end) / PAGE_SIZE > TOTAL_PAGES) {
        return -ENOMEM;
      }
      var below := false;
      if increment > 0 {
        var ok := GrowHeap(d, end);
        if !ok { return -ENOMEM; }
      } else if increment < 0 {
        below := ShrinkHeap(d, end);
      }
      ret := breaks[d];
      if below { breaks[d] := HEAP_BASE; } else { breaks[d] := end; }
    }

    /* fork */

    // One of the loops of sys_fork that map pages lo .. hi - 1 of the child as the father's.
    method ShareRange(father: TaskId, child: TaskId, lo: nat, hi: nat)
      requires Valid() && lo <= hi <= TOTAL_PAGES
      modifies table
      ensures table[..] == old(table[..])[child := Shared(old(table[child]), old(table[father]), lo, hi)]
    {
      hide Shared;
      ghost var ts := table[..];
      NothingShared(ts[child], ts[father], lo);
      for i := lo to hi
        invariant table[..] == ts[child := Shared(ts[child], ts[father], lo, i)]
      {
        SharedFrames(ts[father], lo, i);
        var f := GetFrame(father, i);
        SetSsPag(child, i, f);
        ShareOneMore(ts[child], ts[father], lo, i);
      }
    }

    // A logical address seen through a page table.
    static function Translate(t: Table, address: nat): (a: nat)
      requires address < RAM_SIZE
      ensures a < RAM_SIZE
    {
      t[address / PAGE_SIZE].frame * PAGE_SIZE + address % PAGE_SIZE
    }

    static lemma PageAddress(t: Table, page: nat)
      requires page < TOTAL_PAGES
      ensures Translate(t, page * PAGE_SIZE) == t[page].frame * PAGE_SIZE
    {
      assert (page * PAGE_SIZE) / PAGE_SIZE == page && (page * PAGE_SIZE) % PAGE_SIZE == 0;
    }

    // copy_data of one page between two logical pages of a directory.
    method CopyPage(d: TaskId, from: nat, to: nat)
      requires Valid() && from < TOTAL_PAGES && to < TOTAL_PAGES
      modifies ram
      ensures ram[..] == CopyFrame(old(ram[..]), table[d][from].frame, table[d][to].frame)
    {
      hide Copied, CopyFrame, Translate;
      CopiedPage(ram[..], table[d][from].frame, table[d][to].frame);
      PageAddress(table[d], from);
      PageAddress(table[d], to);
      var a := Translate(table[d], from * PAGE_SIZE);
      var b := Translate(table[d], to * PAGE_SIZE);
      CopyData(ram, a, b, PAGE_SIZE);
    }

    // One turn of the last loop of sys_fork: the new frame is mapped in the child and, through a
    // window above the heap, in the father, who copies his page into it. Father and child may
    // have the same table.
    method MoveThroughWindow(father: TaskId, child: TaskId, page: nat, window: nat, frame: FrameNo)
      requires Valid() && page < window < TOTAL_PAGES
      modifies table, ram
      ensures table[..] == WindowUsed(old(table[..]), father, child, page, window, frame)
      ensures ram[..] == CopyFrame(old(ram[..]), Mapping(old(table[..]), child, page, frame)[father][page].frame, frame)
    {
      hide CopyFrame;
      SetSsPag(child, page, frame);
      ghost var f := table[father];
      SetSsPag(father, window, frame);
      CopyPage(father, page, window);
      DelSsPag(father, window);
      assert table[father] == f[window := ABSENT];
    }

    // Turn i of the loop.
    method CopyTurn(father: TaskId, child: TaskId, first: nat, pages: seq<FrameNo>, i: nat,
                    ghost ts: seq<Table>, ghost r: Ram)
      requires Valid() && |ts| == NR_TASKS && i < |pages|
      requires PAG_LOG_INIT_DATA + |pages| <= first && first + |pages| <= TOTAL_PAGES
      requires table[..] == Turned(ts, father, child, first, pages, i)
      requires ram[..] == CopyFrames(r, Sources(ts, father, child, pages)[..i], pages[..i])
      modifies table, ram
      ensures table[..] == Turned(ts, father, child, first, pages, i + 1)
      ensures ram[..] == CopyFrames(r, Sources(ts, father, child, pages)[..i + 1], pages[..i + 1])
    {
      hide CopyFrames, CopyFrame, Turned, WindowUsed, Mapping, Sources;
      TurnedNext(ts, father, child, first, pages, i);
      CopyOneMore(r, Sources(ts, father, child, pages), pages, i);
      MoveThroughWindow(father, child, PAG_LOG_INIT_DATA + i, first + i, pages[i]);
    }

    method CopyLoop(father: TaskId, child: TaskId, heapPages: nat, pages: seq<FrameNo>)
      requires Valid() && |pages| == NUM_PAG_DATA + heapPages
      requires PAG_LOG_INIT_HEAP + heapPages + |pages| <= TOTAL_PAGES
      modifies table, ram
      ensures table[..] == Turned(old(table[..]), father, child, PAG_LOG_INIT_DATA + |pages|, pages, |pages|)
      ensures ram[..] == CopyFrames(old(ram[..]), Sources(old(table[..]), father, child, pages), pages)
    {
      hide CopyFrames, CopyFrame, Turned, Sources;
      ghost var ts := table[..];
      ghost var r: Ram := ram[..];
      ghost var src := Sources(ts, father, child, pages);
      var first := PAG_LOG_INIT_DATA + NUM_PAG_DATA + heapPages;
      NoTurn(ts, father, child, first, pages);
      NothingCopied(r);
      for i := 0 to |pages|
        invariant table[..] == Turned(ts, father, child, first, pages, i)
        invariant ram[..] == CopyFrames(r, src[..i], pages[..i])
      {
        CopyTurn(father, child, first, pages, i, ts, r);
      }
      assert src[..|src|] == src && pages[..|pages|] == pages;
    }

    // sys_fork from the page tables of father and child to the end of the copying.
    method ForkSpace(father: TaskId, child: TaskId, ghost live: set<TaskId>, ghost sane: set<TaskId>) returns (ok: bool)
      requires Valid() && MemInv(Abs(), live, sane) && father in live && Covered(Abs(), father)
      modifies physMem, table, ram
      ensures (Abs(), ok) == Fork(old(Abs()), father, child)
    {
      hide MemInv, Covered, Take, Mark, Shared, MapPages, CopyFrames, Sources, Turned, FailedTable, Fork;
      ghost var m := Abs();
      ForkFits(m, live, sane, father);
      ShareAll(father, child);
      var programbreakPage := UInt32(breaks[father] - 1) / PAGE_SIZE;
      var heapPages := programbreakPage - PAG_LOG_INIT_HEAP + 1;
      assert programbreakPage + 1 == Pages(breaks[father]);
      ghost var ts := table[..];
      var pages: seq<FrameNo>;
      ok, pages := AllocFrames(NUM_PAG_DATA + heapPages);
      if ok { CopyLoop(father, child, heapPages, pages); }
      ForkSpelt(m, father, child, ts);
    }

    // The first three loops of sys_fork: code, kernel, and the father's heap.
    method ShareAll(father: TaskId, child: TaskId)
      requires Valid() && HEAP_BASE <= breaks[father] <= RAM_SIZE
      modifies table
      ensures table[..]
           == old(table[..])[child := FailedTable(old(table[child]), old(table[father]), Pages(breaks[father]))]
    {
      hide Shared, FailedTable;
      ghost var ts := table[..];
      ShareRange(father, child, PAG_LOG_INIT_CODE, PAG_LOG_INIT_CODE + NUM_PAG_CODE);
      ghost var f1 := table[father];
      SharedFrames(ts[father], PAG_LOG_INIT_CODE, PAG_LOG_INIT_CODE + NUM_PAG_CODE);
      ShareRange(father, child, 0, NUM_PAG_KERNEL);
      ghost var f2 := table[father];
      SharedFrames(f1, 0, NUM_PAG_KERNEL);
      var programbreakPage := UInt32(breaks[father] - 1) / PAGE_SIZE;
      assert programbreakPage + 1 == Pages(breaks[father]);
      ShareRange(father, child, PAG_LOG_INIT_HEAP, programbreakPage + 1);
      ForkedTable(ts[child], ts[father], f1, f2, programbreakPage + 1);
      assert table[..] == ts[child := table[child]];
    }

    /* The end of an address space */

    // free_user_pages
    method FreePages(d: TaskId)
      requires Valid() && FreedEnd(breaks[d]) <= TOTAL_PAGES
      modifies physMem, table
      ensures Abs() == FreeUserPages(old(Abs()), d)
    {
      UnmapUp(d, PAG_LOG_INIT_DATA, PAG_LOG_INIT_HEAP);
      UnmapUp(d, PAG_LOG_INIT_HEAP, FreedEnd(breaks[d]));
      hide UnmapPages, Release, FramesOf;
      UnmapTwice(old(Used()), old(table[d]), PAG_LOG_INIT_DATA, PAG_LOG_INIT_HEAP, FreedEnd(breaks[d]));
    }

    method UnmapUp(d: TaskId, lo: nat, hi: nat)
      requires Valid() && lo <= hi <= TOTAL_PAGES
      modifies physMem, table
      ensures table[..] == old(table[..])[d := UnmapPages(old(table[d]), lo, hi)]
      ensures Used() == Release(old(Used()), FramesOf(old(table[d]), lo, hi))
    {
      hide FramesOf, Release, UnmapPages, FreeFrame;
      ghost var u := Used();
      ghost var ts := table[..];
      NothingUnmapped(u, ts[d], lo);
      for pag := lo to hi
        invariant table[..] == ts[d := UnmapPages(ts[d], lo, pag)]
        invariant Used() == Release(u, FramesOf(ts[d], lo, pag))
      {
        UnmapOne(d, pag);
        UnmapNext(u, ts[d], lo, pag);
      }
    }

    // A store by a program running in directory d.
    method StoreByte(d: TaskId, page: nat, offset: nat, b: Byte)
      requires Valid() && Mapped(Abs(), d, page) && offset < PAGE_SIZE
      modifies ram
      ensures Abs() == Write(old(Abs()), d, page, offset, b)
    {
      ram[Translate(table[d], page * PAGE_SIZE + offset)] := b;
    }

    /* Boot */

    // Zeroed memory, then init_table_pages, init_frames, set_user_pages for task 1 in
    // directory 2 and its break. guard0 and guard1 are the pages of protected_tasks[0] and [11].
    constructor (guard0: nat, guard1: nat, contents: array<Byte>)
      requires contents.Length == RAM_SIZE
      ensures Valid() && Abs() == BootMem(guard0, guard1, contents[..]) && ram == contents
      ensures fresh(physMem) && fresh(table) && fresh(breaks)
    {
      physMem := new bool[TOTAL_PAGES](_ => false);
      var absent: Table := seq(TOTAL_PAGES, _ => ABSENT);
      table := new Table[NR_TASKS](_ => absent);
      breaks := new nat[NR_TASKS](_ => 0);
      ram := contents;
      new;
      InitTablePages(guard0, guard1);
      InitFrames();
      SetUserPages(2);
      breaks[2] := PAG_LOG_INIT_HEAP * PAGE_SIZE;
      BootTables(guard0, guard1);
      assert breaks[..] == seq<nat>(NR_TASKS, _ => 0)[2 := HEAP_BASE];
    }

    method InitTablePages(guard0: nat, guard1: nat)
      requires Valid()
      modifies table
      ensures table[..] == seq(NR_TASKS, _ => KernelTable(guard0, guard1))
    {
      for j := 0 to NR_TASKS
        invariant forall d :: 0 <= d < j ==> table[d] == KernelTable(guard0, guard1)
      {
        var t: Table := seq(TOTAL_PAGES, _ => ABSENT);
        for i := 1 to NUM_PAG_KERNEL
          invariant forall p :: 0 <= p < TOTAL_PAGES ==> t[p] == if 1 <= p < i then Entry(true, p) else ABSENT
        {
          t := t[i := Entry(true, i)];
        }
        if guard0 < TOTAL_PAGES { t := t[guard0 := t[guard0].(present := false)]; }
        if guard1 < TOTAL_PAGES { t := t[guard1 := t[guard1].(present := false)]; }
        assert t == KernelTable(guard0, guard1);
        table[j] := t;
      }
    }

    method InitFrames()
      requires Valid()
      modifies physMem
      ensures forall f :: 0 <= f < TOTAL_PAGES ==> (physMem[f] <==> f < NUM_PAG_KERNEL)
    {
      for i := 0 to TOTAL_PAGES
        invariant forall f :: 0 <= f < i ==> !physMem[f]
      {
        physMem[i] := false;
      }
      for i := 0 to NUM_PAG_KERNEL
        invariant forall f :: 0 <= f < TOTAL_PAGES ==> (physMem[f] <==> f < i)
      {
        physMem[i] := true;
      }
    }

    // set_user_pages; code and data pages follow one another, so the two loops are one range.
    method SetUserPages(d: TaskId)
      requires Valid() && forall f :: 0 <= f < TOTAL_PAGES ==> (physMem[f] <==> f < NUM_PAG_KERNEL)
      modifies physMem, table
      ensures Used() == BootUsed()
      ensures table[..] == old(table[..])[d := MapPages(old(table[d]), PAG_LOG_INIT_CODE, BootFrames())]
    {
      hide MapPages;
      ghost var ts := table[..];
      var n := NUM_PAG_CODE + NUM_PAG_DATA;
      NothingMapped(ts[d], PAG_LOG_INIT_CODE);
      for pag := 0 to n
        invariant UsedUpTo(Used(), pag)
        invariant table[..] == ts[d := MapPages(ts[d], PAG_LOG_INIT_CODE, BootFrames()[..pag])]
      {
        NextBootFrame(Used(), pag);
        var f := AllocFrame();
        SetSsPag(d, PAG_LOG_INIT_CODE + pag, f);
        MapOneMore(ts[d], PAG_LOG_INIT_CODE, BootFrames(), pag);
      }
      assert BootFrames()[..n] == BootFrames();
    }
  }

  // The frame map when the first k even frames above the kernel have been handed out.
  ghost predicate UsedUpTo(u: FrameMap, k: nat) {
    forall f: FrameNo :: u[f] <==> f < NUM_PAG_KERNEL || (f < NUM_PAG_KERNEL + 2 * k && f % 2 == 0)
  }

  lemma NextBootFrame(u: FrameMap, k: nat)
    requires k < NUM_PAG_CODE + NUM_PAG_DATA && UsedUpTo(u, k)
    ensures FirstFit(u, NUM_PAG_KERNEL) == BootFrame(k) && UsedUpTo(u[BootFrame(k) := true], k + 1)
  {
    FirstFitIs(u, NUM_PAG_KERNEL, BootFrame(k));
  }

  lemma {:induction false} FirstFitIs(u: FrameMap, i: nat, f: nat)
    requires NUM_PAG_KERNEL <= i <= f < TOTAL_PAGES && i % 2 == 0 && f % 2 == 0 && !u[f]
    requires forall j :: i <= j < f && j % 2 == 0 ==> u[j]
    ensures FirstFit(u, i) == f
    decreases f - i
  {
    if i < f { FirstFitIs(u, i + 2, f); }
  }

  function BootFrames(): (fs: seq<FrameNo>)
    ensures |fs| == NUM_PAG_CODE + NUM_PAG_DATA && forall i :: 0 <= i < |fs| ==> fs[i] == BootFrame(i)
  {
    seq<FrameNo>(NUM_PAG_CODE + NUM_PAG_DATA, i requires 0 <= i < NUM_PAG_CODE + NUM_PAG_DATA => BootFrame(i))
  }

  lemma BootTables(guard0: nat, guard1: nat)
    ensures var blank := KernelTable(guard0, guard1);
            BootMem(guard0, guard1, seq(RAM_SIZE, _ => 0)).tables
            == seq(NR_TASKS, _ => blank)[2 := MapPages(blank, PAG_LOG_INIT_CODE, BootFrames())]
  {
  }

  lemma UnmapNext(u: FrameMap, t: Table, lo: nat, p: nat)
    requires lo <= p < TOTAL_PAGES
    ensures UnmapPages(t, lo, p + 1) == UnmapPages(t, lo, p)[p := ABSENT]
    ensures Release(u, FramesOf(t, lo, p + 1)) == FreeFrame(Release(u, FramesOf(t, lo, p)), t[p].frame)
  {
    assert FramesOf(t, lo, p + 1) == FramesOf(t, lo, p) + [t[p].frame];
    ReleaseOneMore(u, FramesOf(t, lo, p), t[p].frame);
  }

  lemma UnmapTwice(u: FrameMap, t: Table, lo: nat, mid: nat, hi: nat)
    requires lo <= mid <= hi <= TOTAL_PAGES
    ensures UnmapPages(UnmapPages(t, lo, mid), mid, hi) == UnmapPages(t, lo, hi)
    ensures FramesOf(UnmapPages(t, lo, mid), mid, hi) == FramesOf(t, mid, hi)
    ensures Release(Release(u, FramesOf(t, lo, mid)), FramesOf(t, mid, hi)) == Release(u, FramesOf(t, lo, hi))
  {
    assert FramesOf(t, lo, mid) + FramesOf(t, mid, hi) == FramesOf(t, lo, hi);
    ReleaseTwice(u, FramesOf(t, lo, mid), FramesOf(t, mid, hi));
  }

  // What sys_fork needs of its caller: the window fits.
  lemma ForkFits(m: Mem, live: set<TaskId>, sane: set<TaskId>, father: TaskId)
    requires MemInv(m, live, sane) && father in live && Covered(m, father)
    ensures m.used[NUM_PAG_KERNEL] && HEAP_BASE <= m.breaks[father] <= MAX_HEAP_END * PAGE_SIZE
    ensures var hi := Pages(m.breaks[father]); var r := Take(m.used, hi - PAG_LOG_INIT_DATA);
            r.Some? ==> hi + |r.value| <= TOTAL_PAGES
  {
    CoveredMapped(m, live, sane, father);
    var hi := Pages(m.breaks[father]);
    if Take(m.used, hi - PAG_LOG_INIT_DATA).Some? {
      RoomFor(m, live, sane, father, hi, hi - PAG_LOG_INIT_DATA);
    }
  }

  // The father's table may change while it is read, if it is the child's too, but not the frames
  // it names.
  lemma ForkedTable(child: Table, father: Table, f1: Table, f2: Table, hi: nat)
    requires PAG_LOG_INIT_HEAP <= hi <= TOTAL_PAGES
    requires forall p: PageNo :: f1[p].frame == father[p].frame && f2[p].frame == father[p].frame
    ensures Shared(Shared(Shared(child, father, PAG_LOG_INIT_CODE, PAG_LOG_INIT_DATA), f1, 0, NUM_PAG_KERNEL),
                   f2, PAG_LOG_INIT_HEAP, hi)
         == FailedTable(child, father, hi)
  {
  }

  // Sharing with itself leaves a table its frames.
  lemma SharedFrames(t: Table, lo: nat, hi: nat)
    ensures forall p: PageNo :: Shared(t, t, lo, hi)[p].frame == t[p].frame
  {
  }

  lemma ForkedChild(child: Table, father: Table, hi: nat, pages: seq<FrameNo>)
    requires PAG_LOG_INIT_HEAP <= hi <= TOTAL_PAGES && |pages| == hi - PAG_LOG_INIT_DATA
    ensures MapPages(FailedTable(child, father, hi), PAG_LOG_INIT_DATA, pages) == ChildTable(child, father, pages)
  {
  }

  // The tables once a new frame is mapped in the child, and once it has been used in the window.
  function Mapping(ts: seq<Table>, child: TaskId, page: nat, frame: FrameNo): (ts': seq<Table>)
    requires |ts| == NR_TASKS && page < TOTAL_PAGES
    ensures |ts'| == NR_TASKS
  {
    ts[child := ts[child][page := Entry(true, frame)]]
  }

  function WindowUsed(ts: seq<Table>, father: TaskId, child: TaskId, page: nat, window: nat, frame: FrameNo)
    : (ts': seq<Table>)
    requires |ts| == NR_TASKS && page < TOTAL_PAGES && window < TOTAL_PAGES
    ensures |ts'| == NR_TASKS
  {
    var ts1 := Mapping(ts, child, page, frame);
    ts1[father := ts1[father][window := ABSENT]]
  }

  // The tables after i turns of the last loop of sys_fork, with the window at `first`.
  function Turned(ts: seq<Table>, father: TaskId, child: TaskId, first: nat, pages: seq<FrameNo>, i: nat)
    : (ts': seq<Table>)
    requires |ts| == NR_TASKS && i <= |pages|
    ensures |ts'| == NR_TASKS
  {
    var ts1 := ts[child := MapPages(ts[child], PAG_LOG_INIT_DATA, pages[..i])];
    ts1[father := UnmapPages(ts1[father], first, first + i)]
  }

  // The frames the loop copies from.
  function Sources(ts: seq<Table>, father: TaskId, child: TaskId, pages: seq<FrameNo>): (src: seq<FrameNo>)
    requires |ts| == NR_TASKS && PAG_LOG_INIT_DATA + |pages| <= TOTAL_PAGES
    ensures |src| == |pages|
  {
    var ts1 := ts[child := MapPages(ts[child], PAG_LOG_INIT_DATA, pages)];
    FramesOf(ts1[father], PAG_LOG_INIT_DATA, PAG_LOG_INIT_DATA + |pages|)
  }

  lemma NoTurn(ts: seq<Table>, father: TaskId, child: TaskId, first: nat, pages: seq<FrameNo>)
    requires |ts| == NR_TASKS
    ensures Turned(ts, father, child, first, pages, 0) == ts
  {
    NothingMapped(ts[child], PAG_LOG_INIT_DATA);
    assert ts[child := ts[child]] == ts;
    assert UnmapPages(ts[father], first, first) == ts[father];
  }

  lemma TurnedNext(ts: seq<Table>, father: TaskId, child: TaskId, first: nat, pages: seq<FrameNo>, i: nat)
    requires |ts| == NR_TASKS && i < |pages|
    requires PAG_LOG_INIT_DATA + |pages| <= first && first + |pages| <= TOTAL_PAGES
    ensures var now := Turned(ts, father, child, first, pages, i);
            && WindowUsed(now, father, child, PAG_LOG_INIT_DATA + i, first + i, pages[i])
               == Turned(ts, father, child, first, pages, i + 1)
            && Mapping(now, child, PAG_LOG_INIT_DATA + i, pages[i])[father][PAG_LOG_INIT_DATA + i].frame
               == Sources(ts, father, child, pages)[i]
  {
    MapOneMore(ts[child], PAG_LOG_INIT_DATA, pages, i);
    var t := ts[father];
    if child == father {
      SharedTurn(t, first, pages, i);
    } else {
      assert UnmapPages(t, first, first + i)[first + i := ABSENT] == UnmapPages(t, first, first + i + 1);
    }
  }

  lemma SharedTurn(t: Table, first: nat, pages: seq<FrameNo>, i: nat)
    requires i < |pages| && PAG_LOG_INIT_DATA + |pages| <= first && first + |pages| <= TOTAL_PAGES
    ensures UnmapPages(MapPages(t, PAG_LOG_INIT_DATA, pages[..i]), first, first + i)
            [PAG_LOG_INIT_DATA + i := Entry(true, pages[i])][first + i := ABSENT]
         == UnmapPages(MapPages(t, PAG_LOG_INIT_DATA, pages[..i + 1]), first, first + i + 1)
  {
  }

  // What the loops of sys_fork come to.
  lemma ForkSpelt(m: Mem, father: TaskId, child: TaskId, ts: seq<Table>)
    requires MemShape(m) && HEAP_BASE <= m.breaks[father] <= RAM_SIZE
    requires ts == m.tables[child := FailedTable(m.tables[child], m.tables[father], Pages(m.breaks[father]))]
    ensures var hi := Pages(m.breaks[father]); var r := Take(m.used, hi - PAG_LOG_INIT_DATA);
            Fork(m, father, child) ==
            if r.None? then (m.(tables := ts), false)
            else (m.(used := Mark(m.used, r.value), tables := Turned(ts, father, child, hi, r.value, |r.value|),
                     ram := CopyFrames(m.ram, Sources(ts, father, child, r.value), r.value)), true)
  {
    hide Take, CopyFrames, FramesOf, Mark, UnmapPages, MapPages, FailedTable, ChildTable, Pages;
    var hi := Pages(m.breaks[father]);
    var r := Take(m.used, hi - PAG_LOG_INIT_DATA);
    if r.Some? {
      ForkedChild(m.tables[child], m.tables[father], hi, r.value);
      assert r.value[..|r.value|] == r.value;
      var c := ChildTable(m.tables[child], m.tables[father], r.value);
      assert ts[child := c] == m.tables[child := c];
    }
  }

  // Pages lo .. hi - 1 of the child mapped as the father's, as set_ss_pag does it.
  function Shared(child: Table, father: Table, lo: nat, hi: nat): (t: Table)
    ensures forall p :: 0 <= p < TOTAL_PAGES ==>
                          t[p] == if lo <= p < hi then Entry(true, father[p].frame) else child[p]
  {
    seq(TOTAL_PAGES, p requires 0 <= p < TOTAL_PAGES =>
      if lo <= p < hi then Entry(true, father[p].frame) else child[p])
  }

  lemma NothingShared(child: Table, father: Table, lo: nat)
    ensures Shared(child, father, lo, lo) == child
  {
  }

  lemma ShareOneMore(child: Table, father: Table, lo: nat, i: nat)
    requires lo <= i < TOTAL_PAGES
    ensures Shared(child, father, lo, i + 1) == Shared(child, father, lo, i)[i := Entry(true, father[i].frame)]
  {
  }

  lemma CopiedPage(r: Ram, f: FrameNo, g: FrameNo)
    ensures Copied(r, f * PAGE_SIZE, g * PAGE_SIZE, PAGE_SIZE) == CopyFrame(r, f, g)
  {
    hide Copied, Bytes;
    CopyDataIsByteCopy(r, f * PAGE_SIZE, g * PAGE_SIZE, PAGE_SIZE);
    BytesMoved(r, f * PAGE_SIZE, g * PAGE_SIZE, PAGE_SIZE);
  }

  lemma NothingMapped(t: Table, first: nat)
    ensures MapPages(t, first, []) == t
  {
  }

  lemma NothingCopied(r: Ram)
    ensures CopyFrames(r, [], []) == r
  {
  }

  lemma MapOneMore(t: Table, first: nat, pages: seq<FrameNo>, i: nat)
    requires i < |pages| && first + i < TOTAL_PAGES
    ensures MapPages(t, first, pages[..i + 1]) == MapPages(t, first, pages[..i])[first + i := Entry(true, pages[i])]
  {
  }

  lemma CopyOneMore(r: Ram, src: seq<FrameNo>, dst: seq<FrameNo>, i: nat)
    requires |src| == |dst| && i < |src|
    ensures CopyFrames(r, src[..i + 1], dst[..i + 1]) == CopyFrame(CopyFrames(r, src[..i], dst[..i]), src[i], dst[i])
  {
    assert src[..i + 1][..i] == src[..i] && dst[..i + 1][..i] == dst[..i];
  }

  // A growth that gets its frames stays within the table.
  lemma SbrkFits(m: Mem, live: set<TaskId>, sane: set<TaskId>, d: TaskId)
    requires MemInv(m, live, sane) && d in live
    ensures m.used[NUM_PAG_KERNEL] && m.breaks[d] <= MAX_HEAP_END * PAGE_SIZE
    ensures Covered(m, d) || m.breaks[d] == 0 ==>
              forall end: nat :: m.breaks[d] < end && Take(m.used, Pages(end) - Pages(m.breaks[d])).Some?
                                 ==> Pages(end) <= TOTAL_PAGES
  {
    assert m.breaks[d] == 0 || HEAP_BASE <= m.breaks[d] <= MAX_HEAP_END * PAGE_SIZE;
    if Covered(m, d) { CoveredMapped(m, live, sane, d); }
    forall end: nat | (Covered(m, d) || m.breaks[d] == 0) && m.breaks[d] < end
                      && Take(m.used, Pages(end) - Pages(m.breaks[d])).Some?
      ensures Pages(end) <= TOTAL_PAGES
    {
      var n := Pages(end) - Pages(m.breaks[d]);
      if m.breaks[d] == 0 {
        FreshFrames(m, n);
        AtMost376(Take(m.used, n).value);
      } else {
        RoomFor(m, live, sane, d, Pages(m.breaks[d]), n);
      }
    }
  }

  // What the loop of a shrink from break b to end, with the extra page of an aligned end,
  // amounts to.
  lemma ShrinkShape(u: FrameMap, t: Table, b: nat, end: nat)
    requires HEAP_BASE <= b < RAM_SIZE && end < b
    ensures var ini := b / PAGE_SIZE; var fin := Max(end / PAGE_SIZE, PAG_LOG_INIT_HEAP);
            var lo := ShrinkFrom(end); var hi := FreedEnd(b);
            var t1 := UnmapPages(t, fin + 1, ini + 1);
            var u1 := Release(u, FramesOf(t, fin + 1, ini + 1));
            && fin <= ini < TOTAL_PAGES && fin + 1 == ini + 1 - UInt32(ini - fin) && t1[fin] == t[fin]
            && (if end % PAGE_SIZE == 0
                then t1[fin := ABSENT] == UnmapPages(t, lo, hi) &&
                     FreeFrame(u1, t[fin].frame) == Release(u, FramesOf(t, lo, hi))
                else t1 == UnmapPages(t, lo, hi) && u1 == Release(u, FramesOf(t, lo, hi)))
  {
    var ini := b / PAGE_SIZE;
    var fin := Max(end / PAGE_SIZE, PAG_LOG_INIT_HEAP);
    assert FreedEnd(b) == ini + 1;
    if end % PAGE_SIZE == 0 {
      UnmapOneMore(u, t, fin, ini + 1);
      assert ShrinkFrom(end) == fin;
    } else {
      assert ShrinkFrom(end) == fin + 1;
    }
  }

  lemma ReleaseNothing(u: FrameMap)
    ensures Release(u, []) == u
  {
  }

  lemma NothingUnmapped(u: FrameMap, t: Table, p: nat)
    requires p <= TOTAL_PAGES
    ensures UnmapPages(t, p, p) == t && Release(u, FramesOf(t, p, p)) == u
  {
    ReleaseNothing(u);
    assert FramesOf(t, p, p) == [];
  }

  lemma TakeNothing(u: FrameMap)
    ensures Take(u, 0) == Some([]) && Mark(u, []) == u
  {
  }

  lemma UnmapOneMore(u: FrameMap, t: Table, p: nat, hi: nat)
    requires p < hi <= TOTAL_PAGES
    ensures UnmapPages(t, p, hi) == UnmapPages(t, p + 1, hi)[p := ABSENT]
    ensures Release(u, FramesOf(t, p, hi)) == FreeFrame(Release(u, FramesOf(t, p + 1, hi)), t[p].frame)
  {
    assert FramesOf(t, p, hi) == [t[p].frame] + FramesOf(t, p + 1, hi);
  }
}
