// Page tables, program breaks and physical memory as values: what fork, sbrk and the end of
// an address space mean. Heap sizes are stated by rounding the break up to a page; the code
// gets there by four cases of aligned and unaligned breaks.
module AddressSpaces {
  import opened Layout
  import opened Frames

  // A page table entry, reduced to its present bit and frame number.
  datatype Entry = Entry(present: bool, frame: FrameNo)

  const ABSENT := Entry(false, 0)

  type Byte = b: nat | b < 256

  type Table = t: seq<Entry> | |t| == TOTAL_PAGES witness seq(TOTAL_PAGES, _ => ABSENT)

  const RAM_SIZE := TOTAL_PAGES * PAGE_SIZE

  type Ram = r: seq<Byte> | |r| == RAM_SIZE witness seq(RAM_SIZE, _ => 0)

  // phys_mem, pagusr_table, programbreak_table and the contents of the frames.
  datatype Mem = Mem(used: FrameMap, tables: seq<Table>, breaks: seq<nat>, ram: Ram)

  predicate MemShape(m: Mem) {
    |m.tables| == NR_TASKS && |m.breaks| == NR_TASKS
  }

  // The first page that lies wholly at or above address b.
  function Pages(b: nat): (p: nat)
    ensures (p - 1) * PAGE_SIZE < b <= p * PAGE_SIZE
  {
    (b + (PAGE_SIZE - 1)) / PAGE_SIZE
  }

  /* Page tables */

  // Pages first, first + 1, ... mapped to the frames fs.
  function MapPages(t: Table, first: nat, fs: seq<FrameNo>): (t': Table)
    ensures forall p :: 0 <= p < TOTAL_PAGES ==>
                          t'[p] == if first <= p < first + |fs| then Entry(true, fs[p - first]) else t[p]
  {
    seq(TOTAL_PAGES, p requires 0 <= p < TOTAL_PAGES =>
      if first <= p < first + |fs| then Entry(true, fs[p - first]) else t[p])
  }

  // Pages lo .. hi - 1 unmapped.
  function UnmapPages(t: Table, lo: nat, hi: nat): (t': Table)
    ensures forall p :: 0 <= p < TOTAL_PAGES ==> t'[p] == if lo <= p < hi then ABSENT else t[p]
  {
    seq(TOTAL_PAGES, p requires 0 <= p < TOTAL_PAGES => if lo <= p < hi then ABSENT else t[p])
  }

  // The frame numbers of pages lo .. hi - 1.
  function FramesOf(t: Table, lo: nat, hi: nat): (fs: seq<FrameNo>)
    requires lo <= hi <= TOTAL_PAGES
    ensures |fs| == hi - lo && forall i :: 0 <= i < hi - lo ==> fs[i] == t[lo + i].frame
  {
    seq<FrameNo>(hi - lo, i requires 0 <= i < hi - lo => t[lo + i].frame)
  }

  function SetTable(m: Mem, d: TaskId, t: Table): (m': Mem)
    requires MemShape(m)
    ensures MemShape(m')
  {
    m.(tables := m.tables[d := t])
  }

  /* sbrk */

  // The heap pages below the break of directory d are mapped.
  ghost predicate Covered(m: Mem, d: TaskId)
    requires MemShape(m)
  {
    && HEAP_BASE <= m.breaks[d] < RAM_SIZE
    && (forall p :: PAG_LOG_INIT_HEAP <= p < Pages(m.breaks[d]) ==> m.tables[d][p].present)
  }

  // Pages lo .. hi - 1 are not mapped.
  ghost predicate Absent(t: Table, lo: nat, hi: nat) {
    forall p :: lo <= p < hi && p < TOTAL_PAGES ==> t[p] == ABSENT
  }

  // The mapped heap pages of directory d are exactly those below its break.
  ghost predicate Exact(m: Mem, d: TaskId)
    requires MemShape(m)
  {
    Covered(m, d) && Absent(m.tables[d], Pages(m.breaks[d]), TOTAL_PAGES)
  }

  // Exact, but that page 284 may be mapped when the break is the start of the heap.
  ghost predicate NearlyExact(m: Mem, d: TaskId)
    requires MemShape(m)
  {
    && Covered(m, d)
    && Absent(m.tables[d], Max(Pages(m.breaks[d]), PAG_LOG_INIT_HEAP + 1), TOTAL_PAGES)
  }

  lemma NearlyExactMeans(m: Mem, d: TaskId)
    requires MemShape(m) && NearlyExact(m, d)
    ensures Exact(m, d) <==> m.breaks[d] > HEAP_BASE || m.tables[d][PAG_LOG_INIT_HEAP] == ABSENT
    ensures Absent(m.tables[d], FreedEnd(m.breaks[d]), TOTAL_PAGES)
  {
  }

  // The end address as the 32-bit pointer sum of sys_sbrk.
  function EndAddress(b: nat, increment: int): nat {
    UInt32(b + increment)
  }

  // The guard of sys_sbrk on a non-negative increment: (int)endaddress >> 12 within the heap.
  predicate EndInRange(end: nat)
  {
    PAG_LOG_INIT_HEAP <= Int32(end) / PAGE_SIZE <= TOTAL_PAGES
  }

  // The lowest page a shrink to `end` unmaps. Below the heap an unaligned end spares page 284.
  function ShrinkFrom(end: nat): (p: nat)
  {
    if end >= HEAP_BASE then Pages(end)
    else if end % PAGE_SIZE == 0 then PAG_LOG_INIT_HEAP
    else PAG_LOG_INIT_HEAP + 1
  }

  // The break of d raised to end, and the pages that crosses given the frames fs.
  function GrowWith(m: Mem, d: TaskId, end: nat, fs: seq<FrameNo>): (m': Mem)
    requires MemShape(m)
    ensures MemShape(m') && m'.breaks[d] == end
  {
    m.(used := Mark(m.used, fs),
       tables := m.tables[d := MapPages(m.tables[d], Pages(m.breaks[d]), fs)],
       breaks := m.breaks[d := end])
  }

  function Grow(m: Mem, d: TaskId, end: nat): (r: Option<Mem>)
    requires MemShape(m)
    ensures r.Some? ==> MemShape(r.value) && r.value.breaks[d] == end
  {
    match Take(m.used, Max(0, Pages(end) - Pages(m.breaks[d])))
    case None => None
    case Some(fs) => Some(GrowWith(m, d, end, fs))
  }

  // The page after the one a break lies in, but not below the heap: the end of what a shrink
  // and free_user_pages look at.
  function FreedEnd(b: nat): (p: nat)
  {
    Max(PAG_LOG_INIT_HEAP, b / PAGE_SIZE + 1)
  }

  // The break of d lowered to end, but not below the heap, and the pages above it given back,
  // up to the page of the old break.
  function Shrink(m: Mem, d: TaskId, end: nat): (m': Mem)
    requires MemShape(m) && HEAP_BASE <= m.breaks[d] < RAM_SIZE && end <= m.breaks[d]
    ensures MemShape(m')
  {
    var lo := ShrinkFrom(end);
    var hi := FreedEnd(m.breaks[d]);
    m.(used := Release(m.used, FramesOf(m.tables[d], lo, hi)),
       tables := m.tables[d := UnmapPages(m.tables[d], lo, hi)],
       breaks := m.breaks[d := Max(end, HEAP_BASE)])
  }

  // An sbrk that works on page table entries only: any growth, and a shrink that starts in the
  // heap and does not wrap.
  predicate SbrkDefined(b: nat, increment: int) {
    && -TWO_31 <= increment < TWO_31 && b <= RAM_SIZE
    && (increment < 0 ==> HEAP_BASE <= b < RAM_SIZE && b + increment >= 0)
  }

  function Sbrk(m: Mem, d: TaskId, increment: int): (r: (Mem, int))
    requires MemShape(m) && SbrkDefined(m.breaks[d], increment)
    ensures MemShape(r.0)
  {
    var b := m.breaks[d];
    var end := EndAddress(b, increment);
    if increment >= 0 && !EndInRange(end) then (m, -ENOMEM)
    else if increment == 0 then (m, b)
    else if increment > 0 then
      match Grow(m, d, end)
      case None => (m, -ENOMEM)
      case Some(m') => (m', b)
    else (Shrink(m, d, end), b)
  }

  /* fork */

  // Number of heap pages of a directory whose break is b.
  function HeapPages(b: nat): int {
    Pages(b) - PAG_LOG_INIT_HEAP
  }

  // The child's table: kernel and code as the father's, data and heap in the frames fs; what
  // it held above that is left alone.
  function ChildTable(child: Table, father: Table, fs: seq<FrameNo>): (t: Table)
    ensures forall p :: 0 <= p < TOTAL_PAGES ==>
                          t[p] == if p < PAG_LOG_INIT_DATA then Entry(true, father[p].frame)
                                  else if p < PAG_LOG_INIT_DATA + |fs| then Entry(true, fs[p - PAG_LOG_INIT_DATA])
                                  else child[p]
  {
    seq(TOTAL_PAGES, p requires 0 <= p < TOTAL_PAGES =>
      if p < PAG_LOG_INIT_DATA then Entry(true, father[p].frame)
      else if p < PAG_LOG_INIT_DATA + |fs| then Entry(true, fs[p - PAG_LOG_INIT_DATA])
      else child[p])
  }

  // What a fork without enough frames leaves in the child's table: also the father's heap.
  function FailedTable(child: Table, father: Table, heapEnd: nat): (t: Table)
    ensures forall p :: 0 <= p < TOTAL_PAGES ==>
                          t[p] == if p < PAG_LOG_INIT_DATA || PAG_LOG_INIT_HEAP <= p < heapEnd
                                  then Entry(true, father[p].frame) else child[p]
  {
    seq(TOTAL_PAGES, p requires 0 <= p < TOTAL_PAGES =>
      if p < PAG_LOG_INIT_DATA || PAG_LOG_INIT_HEAP <= p < heapEnd then Entry(true, father[p].frame)
      else child[p])
  }

  // The contents of a frame.
  function Frame(ram: Ram, f: FrameNo): (bytes: seq<Byte>)
    ensures |bytes| == PAGE_SIZE && forall i :: 0 <= i < PAGE_SIZE ==> bytes[i] == ram[f * PAGE_SIZE + i]
  {
    ram[f * PAGE_SIZE..(f + 1) * PAGE_SIZE]
  }

  // One page copied from frame s to frame d.
  function CopyFrame(ram: Ram, s: FrameNo, d: FrameNo): (ram': Ram)
    ensures Frame(ram', d) == Frame(ram, s)
    ensures forall f: FrameNo :: f != d ==> Frame(ram', f) == Frame(ram, f)
  {
    ram[..d * PAGE_SIZE] + Frame(ram, s) + ram[(d + 1) * PAGE_SIZE..]
  }

  // The frames src copied one after the other to the frames dst.
  function CopyFrames(ram: Ram, src: seq<FrameNo>, dst: seq<FrameNo>): Ram
    requires |src| == |dst|
  {
    if src == [] then ram
    else
      var k := |src| - 1;
      CopyFrame(CopyFrames(ram, src[..k], dst[..k]), src[k], dst[k])
  }

  // sys_fork's work on memory. When no directory was free the child has its father's, and the
  // two tables are one. The last loop maps the new frames in the child, and one after the other
  // in a window above the father's heap, to which he copies what his table then shows him.
  function Fork(m: Mem, father: TaskId, child: TaskId): (r: (Mem, bool))
    requires MemShape(m) && HEAP_BASE <= m.breaks[father] <= RAM_SIZE
    ensures MemShape(r.0)
  {
    var heapEnd := Pages(m.breaks[father]);
    var t := m.tables[father];
    match Take(m.used, heapEnd - PAG_LOG_INIT_DATA)
    case None => (SetTable(m, child, FailedTable(m.tables[child], t, heapEnd)), false)
    case Some(fs) =>
      var m1 := SetTable(m, child, ChildTable(m.tables[child], t, fs));
      var t1 := m1.tables[father];
      (SetTable(m1, father, UnmapPages(t1, heapEnd, heapEnd + |fs|))
       .(used := Mark(m.used, fs), ram := CopyFrames(m.ram, FramesOf(t1, PAG_LOG_INIT_DATA, heapEnd), fs)),
       true)
  }

  // A successful fork, spelt out.
  lemma ForkGranted(m: Mem, father: TaskId, child: TaskId)
    requires MemShape(m) && HEAP_BASE <= m.breaks[father] <= RAM_SIZE && Fork(m, father, child).1
    ensures var hi := Pages(m.breaks[father]); var r := Take(m.used, hi - PAG_LOG_INIT_DATA);
            && r.Some?
            && var m1 := SetTable(m, child, ChildTable(m.tables[child], m.tables[father], r.value));
               var t1 := m1.tables[father];
               Fork(m, father, child).0
               == SetTable(m1, father, UnmapPages(t1, hi, hi + |r.value|))
                  .(used := Mark(m.used, r.value),
                    ram := CopyFrames(m.ram, FramesOf(t1, PAG_LOG_INIT_DATA, hi), r.value))
  {
    hide Take, ChildTable, CopyFrames, FramesOf, Pages, UnmapPages, Mark;
  }

  lemma ForkKeepsBreaks(m: Mem, father: TaskId, child: TaskId)
    requires MemShape(m) && HEAP_BASE <= m.breaks[father] <= RAM_SIZE
    ensures Fork(m, father, child).0.breaks == m.breaks
  {
    hide Take, ChildTable, CopyFrames, FramesOf, Pages, UnmapPages, Mark;
  }

  /* The end of an address space */

  function FreeUserPages(m: Mem, d: TaskId): (m': Mem)
    requires MemShape(m) && FreedEnd(m.breaks[d]) <= TOTAL_PAGES
    ensures MemShape(m')
  {
    var hi := FreedEnd(m.breaks[d]);
    SetTable(m, d, UnmapPages(m.tables[d], PAG_LOG_INIT_DATA, hi))
    .(used := Release(m.used, FramesOf(m.tables[d], PAG_LOG_INIT_DATA, hi)))
  }

  /* A user program's view of memory */

  predicate Mapped(m: Mem, d: TaskId, page: int)
    requires MemShape(m)
  {
    0 <= page < TOTAL_PAGES && m.tables[d][page].present
  }

  // What directory d sees in a page.
  function View(m: Mem, d: TaskId, page: nat): (bytes: seq<Byte>)
    requires MemShape(m) && Mapped(m, d, page)
    ensures |bytes| == PAGE_SIZE
  {
    Frame(m.ram, m.tables[d][page].frame)
  }

  // A store by a program running in directory d.
  function Write(m: Mem, d: TaskId, page: nat, offset: nat, b: Byte): (m': Mem)
    requires MemShape(m) && Mapped(m, d, page) && offset < PAGE_SIZE
    ensures MemShape(m')
  {
    m.(ram := m.ram[m.tables[d][page].frame * PAGE_SIZE + offset := b])
  }

  /* Boot */

  // Kernel pages are mapped to the frames of the same number, but for page 0 and the two
  // pages that protect the task array, at guard0 and guard1, which are not present.
  function KernelTable(guard0: nat, guard1: nat): (t: Table)
    ensures forall p :: 0 <= p < TOTAL_PAGES ==>
                          t[p] == if p < NUM_PAG_KERNEL then Entry(p != 0 && p != guard0 && p != guard1, p)
                                  else ABSENT
  {
    seq(TOTAL_PAGES, p requires 0 <= p < TOTAL_PAGES =>
      if p < NUM_PAG_KERNEL then Entry(p != 0 && p != guard0 && p != guard1, p) else ABSENT)
  }

  // The frames of task 1, as first fit deals them out to an empty machine.
  function BootFrame(i: nat): (f: FrameNo)
    requires i <= NUM_PAG_CODE + NUM_PAG_DATA
  {
    NUM_PAG_KERNEL + 2 * i
  }

  function BootUsed(): (u: FrameMap)
    ensures forall f: FrameNo ::
              u[f] <==> f < NUM_PAG_KERNEL || (f < BootFrame(NUM_PAG_CODE + NUM_PAG_DATA) && f % 2 == 0)
  {
    seq(TOTAL_PAGES, f => f < NUM_PAG_KERNEL || (f < BootFrame(NUM_PAG_CODE + NUM_PAG_DATA) && f % 2 == 0))
  }

  function BootMem(guard0: nat, guard1: nat, ram: Ram): (m: Mem)
    ensures MemShape(m)
  {
    var blank := KernelTable(guard0, guard1);
    var n := NUM_PAG_CODE + NUM_PAG_DATA;
    Mem(BootUsed(),
        seq(NR_TASKS, _ => blank)
        [2 := MapPages(blank, PAG_LOG_INIT_CODE, seq<FrameNo>(n, i requires 0 <= i < n => BootFrame(i)))],
        seq<nat>(NR_TASKS, _ => 0)[2 := HEAP_BASE],
        ram)
  }
}
