// read_it of bootsect.S: the sector-loading loop, in 16-bit arithmetic with its carries.
module BootSector {
  const SECTORS := 18          // per track
  const SYSSEG := 0x1000
  const LOAD_ADDRESS := 0x10000
  const BOOT_SECTOR_COPY := 0x90000
  const TWO_16 := 0x1_0000
  const DISK_SECTORS := 2880

  type Word = w: nat | w < TWO_16

  function Low16(x: int): (r: Word)
    ensures 0 <= x < TWO_16 ==> r == x
    ensures -TWO_16 <= x < 0 ==> r == x + TWO_16
    ensures TWO_16 <= x < 2 * TWO_16 ==> r == x - TWO_16
  {
    x % TWO_16
  }

  // One BIOS call: `count` sectors from this place on the disk to this linear address.
  datatype Request = Request(track: Word, head: Word, sector: Word, count: Word, address: nat)

  // The number of a sector on the disk, counted from 0; sectors of a track count from 1.
  function Lba(track: nat, head: nat, sector: int): int {
    (track * 2 + head) * SECTORS + sector - 1
  }

  // A read the BIOS and the DMA chip can do: at least one sector, within one track of the
  // disk and within one 64 KB segment.
  predicate RequestOk(r: Request) {
    && r.count >= 1 && r.head < 2 && 1 <= r.sector && r.sector + r.count <= SECTORS + 1
    && r.address % TWO_16 + 512 * r.count <= TWO_16
    && r.address == LOAD_ADDRESS + 512 * (Lba(r.track, r.head, r.sector) - 1)
  }

  // No call for more sectors could take its place.
  predicate LargestOk(r: Request) {
    RequestOk(r) && (r.count + 1 < TWO_16 ==> !RequestOk(r.(count := r.count + 1)))
  }

  // What a list of BIOS calls brings in, one after the other.
  function Delivered<Sector>(disk: seq<Sector>, requests: seq<Request>): (image: seq<Sector>) {
    if requests == [] then []
    else
      var r := requests[|requests| - 1];
      var from := Lba(r.track, r.head, r.sector);
      Delivered(disk, requests[..|requests| - 1])
      + if 0 <= from && from + r.count <= |disk| then disk[from..from + r.count] else []
  }

  // Whole segments are loaded until the segment number passes syssize.
  function SectorsLoaded(syssize: Word): (n: nat) {
    128 * (syssize / 0x1000 + 1)
  }

  // The size check of ok1_read: as many sectors as are left in the track, or, when those would
  // run over the end of the segment, as many as are left in the segment.
  function SectorsToRead(sread: Word, bx: Word): (ax: Word)
    requires sread < SECTORS
  {
    var ax := SECTORS - sread;
    var sum := ax * 512 + bx;
    if sum >= TWO_16 && Low16(sum) != 0 then Low16(0 - bx) / 512 else ax
  }

  // It reads at least one sector, stays inside the track and the segment, and reads as much as
  // that allows.
  lemma SectorsToReadFit(sread: Word, bx: Word)
    requires sread < SECTORS && bx % 512 == 0
    ensures var n := SectorsToRead(sread, bx);
            && 1 <= n <= SECTORS - sread && bx + 512 * n <= TWO_16
            && forall more :: more > n ==> more > SECTORS - sread || bx + 512 * more > TWO_16
  {
    hide Low16;
    var k := bx / 512;
    assert bx == 512 * k;
    assert k > 0 ==> Low16(0 - bx) == 512 * (128 - k);
  }

  // The segment for sector n, in 16 bits.
  function SegmentAt(n: nat): (es: Word) {
    Low16(SYSSEG + 0x1000 * (n / 128))
  }

  // Where the loader is after n sectors: in memory, at segment es and offset bx; on the disk,
  // at the sector after `sread` of this track and head, which is sector n + 1.
  predicate At(n: nat, es: Word, bx: Word, track: Word, head: Word, sread: Word) {
    && es == SegmentAt(n) && bx == 512 * (n % 128)
    && head < 2 && sread < SECTORS && Lba(track, head, sread + 1) == n + 1
  }

  // Next track and head once a track has been read to its end (ok2_read to ok3_read).
  method Advance(sread: Word, count: Word, head: Word, track: Word) returns (sread': Word, head': Word, track': Word)
    requires sread + count <= SECTORS && head < 2 && track < TWO_16 - 1
    ensures sread' < SECTORS && head' < 2 && track' <= track + 1
    ensures Lba(track', head', sread' + 1) == Lba(track, head, sread + 1) + count
  {
    var ax := count + sread;
    head', track' := head, track;
    if ax == SECTORS {
      ax := Low16(1 - head);
      if ax == 0 { track' := track' + 1; }
      head' := ax;
      ax := 0;
    }
    sread' := ax;
  }

  // Next segment and offset: a carry out of bx moves on to the next 64 KB (rp_read's tail).
  method AdvanceMemory(ghost n: nat, es: Word, bx: Word, count: Word) returns (es': Word, bx': Word)
    requires es == SegmentAt(n) && bx == 512 * (n % 128)
    requires 1 <= count <= SECTORS && bx + 512 * count <= TWO_16
    ensures es' == SegmentAt(n + count) && bx' == 512 * ((n + count) % 128)
  {
    var sum := bx + count * 512;
    es', bx' := es, Low16(sum);
    if sum >= TWO_16 {
      es' := Low16(es' + 0x1000);
      bx' := 0;
    }
    SegmentSplit(n, count);
    NextSegment(n / 128);
  }

  lemma NextSegment(k: nat)
    ensures Low16(Low16(SYSSEG + 0x1000 * k) + 0x1000) == Low16(SYSSEG + 0x1000 * (k + 1))
  {
  }

  lemma SegmentSplit(n: nat, count: nat)
    requires n % 128 + count <= 128
    ensures n % 128 + count == 128 ==> (n + count) / 128 == n / 128 + 1 && (n + count) % 128 == 0
    ensures n % 128 + count < 128 ==> (n + count) / 128 == n / 128 && (n + count) % 128 == n % 128 + count
    ensures n + count <= 128 * (n / 128 + 1)
  {
  }

  // The loop. `image` is memory from LOAD_ADDRESS on, one element a sector; `requests` lists
  // the BIOS calls. With a larger syssize it does not end (LoopEndsExactly).
  method ReadIt<Sector>(disk: seq<Sector>, syssize: Word)
    returns (image: seq<Sector>, requests: seq<Request>, es: Word)
    requires |disk| == DISK_SECTORS && syssize < 0xF000
    ensures image == disk[1..1 + SectorsLoaded(syssize)]
    ensures forall r :: r in requests ==> LargestOk(r)
    ensures image == Delivered(disk, requests)
    ensures es == Low16(SYSSEG + 32 * SectorsLoaded(syssize))
  {
    hide Lba, SectorsToRead, RequestOk, LargestOk;
    var bx: Word, sread: Word, head: Word, track: Word := 0, 1, 0, 0;
    es := SYSSEG;
    image, requests := [], [];
    StartsAt();
    while Low16(es - SYSSEG) <= syssize
      invariant At(|image|, es, bx, track, head, sread)
      invariant |image| <= SectorsLoaded(syssize) && image == disk[1..1 + |image|]
      invariant forall r :: r in requests ==> LargestOk(r)
      invariant image == Delivered(disk, requests)
      decreases SectorsLoaded(syssize) - |image|
    {
      var n := |image|;
      GuardMeansMore(n, es, syssize);
      var ax := SectorsToRead(sread, bx);
      SectorsToReadFit(sread, bx);
      var r := Request(track, head, sread + 1, ax, es * 16 + bx);
      PlaceOfRequest(n, es, bx, track, head, sread, ax);
      LargestRequest(n, es, bx, track, head, sread, ax);
      image := ReadTrack(disk, image, r);
      requests := requests + [r];
      sread, head, track := Advance(sread, ax, head, track);
      es, bx := AdvanceMemory(n, es, bx, ax);
    }
    GuardMeansMore(|image|, es, syssize);
  }

  lemma StartsAt()
    ensures At(0, SYSSEG, 0, 0, 0, 1)
  {
  }

  // The loop test compares segments; it asks whether sectors are missing.
  lemma GuardMeansMore(n: nat, es: Word, syssize: Word)
    requires es == SegmentAt(n) && syssize < 0xF000 && n <= SectorsLoaded(syssize)
    ensures Low16(es - SYSSEG) <= syssize <==> n < SectorsLoaded(syssize)
    ensures n < SectorsLoaded(syssize) ==> 128 * (n / 128 + 1) <= SectorsLoaded(syssize)
  {
    var d := n / 128;
    assert 128 * d <= n < 128 * (d + 1) && d <= 15;
    assert Low16(es - SYSSEG) == 0x1000 * d;
    assert 0x1000 * d <= syssize <==> d <= syssize / 0x1000;
  }

  lemma PlaceOfRequest(n: nat, es: Word, bx: Word, track: Word, head: Word, sread: Word, count: Word)
    requires At(n, es, bx, track, head, sread) && n < 1920
    requires 1 <= count <= SECTORS - sread && bx + 512 * count <= TWO_16
    ensures RequestOk(Request(track, head, sread + 1, count, es * 16 + bx))
    ensures es * 16 + bx == LOAD_ADDRESS + 512 * n && Lba(track, head, sread + 1) == n + 1
    ensures n + count <= 128 * (n / 128 + 1) && track < TWO_16 - 1
  {
    SegmentSplit(n, count);
    SegmentAddress(n);
    hide SegmentAt;
    var k := 1 + n / 128;
    assert es * 16 + bx == k * TWO_16 + bx;
    ModOf(k, bx);
  }

  lemma LargestRequest(n: nat, es: Word, bx: Word, track: Word, head: Word, sread: Word, count: Word)
    requires At(n, es, bx, track, head, sread) && n < 1920 && count == SectorsToRead(sread, bx)
    ensures LargestOk(Request(track, head, sread + 1, count, es * 16 + bx))
  {
    SectorsToReadFit(sread, bx);
    PlaceOfRequest(n, es, bx, track, head, sread, count);
    SegmentAddress(n);
    ModOf(1 + n / 128, bx);
    hide SegmentAt, SectorsToRead, Lba;
    assert es * 16 + bx == (1 + n / 128) * TWO_16 + bx;
  }

  lemma SegmentAddress(n: nat)
    requires n < 1920
    ensures SegmentAt(n) * 16 == (1 + n / 128) * TWO_16
  {
    assert 0 <= n / 128 <= 14;
  }

  lemma ModOf(k: nat, bx: Word)
    ensures (k * TWO_16 + bx) % TWO_16 == bx
  {
  }

  // read_track: the sectors asked for, put where the image ends.
  method ReadTrack<Sector>(disk: seq<Sector>, image: seq<Sector>, r: Request) returns (image': seq<Sector>)
    requires RequestOk(r) && r.address == LOAD_ADDRESS + 512 * |image|
    requires |image| + 1 + r.count <= |disk| && image == disk[1..1 + |image|]
    ensures image' == disk[1..1 + |image| + r.count]
    ensures forall requests :: image == Delivered(disk, requests) ==> image' == Delivered(disk, requests + [r])
  {
    var from := Lba(r.track, r.head, r.sector);
    image' := image + disk[from..from + r.count];
    forall requests | image == Delivered(disk, requests) ensures image' == Delivered(disk, requests + [r]) {
      assert (requests + [r])[..|requests|] == requests;
    }
  }

  // A place of the loader at which the test ends the loop.
  predicate StopsAt(n: nat, es: Word, bx: Word, track: Word, head: Word, sread: Word, syssize: Word) {
    At(n, es, bx, track, head, sread) && Low16(es - SYSSEG) > syssize
  }

  // From 0xF000 on the loop goes on wherever the loader is.
  lemma LoopGoesOn(n: nat, es: Word, bx: Word, track: Word, head: Word, sread: Word, syssize: Word)
    requires At(n, es, bx, track, head, sread) && syssize >= 0xF000
    ensures Low16(es - SYSSEG) <= syssize
  {
    hide Lba;
    SegmentStarts(n / 128);
  }

  lemma SegmentStarts(k: nat)
    ensures Low16(SYSSEG + 0x1000 * k) % 0x1000 == 0
    ensures Low16(Low16(SYSSEG + 0x1000 * k) - SYSSEG) <= 0xF000
  {
    var es := Low16(SYSSEG + 0x1000 * k);
    assert es % 0x1000 == 0 && es <= 0xF000;
  }

  // There is a place where it stops exactly for a syssize below 0xF000.
  lemma LoopEndsExactly(syssize: Word)
    ensures (exists n, es: Word, bx: Word, track: Word, head: Word, sread: Word ::
               StopsAt(n, es, bx, track, head, sread, syssize)) <==> syssize < 0xF000
  {
    if syssize < 0xF000 {
      var n := SectorsLoaded(syssize);
      var track: Word, head: Word, sread: Word := (n + 1) / 36, ((n + 1) / 18) % 2, (n + 1) % 18;
      PlaceOf(n);
      GuardMeansMore(n, SegmentAt(n), syssize);
      assert StopsAt(n, SegmentAt(n), 512 * (n % 128), track, head, sread, syssize);
    } else {
      forall n: nat, es: Word, bx: Word, track: Word, head: Word, sread: Word |
        At(n, es, bx, track, head, sread)
        ensures Low16(es - SYSSEG) <= syssize
      {
        LoopGoesOn(n, es, bx, track, head, sread, syssize);
      }
    }
  }

  lemma PlaceOf(n: nat)
    ensures Lba((n + 1) / 36, ((n + 1) / 18) % 2, (n + 1) % 18 + 1) == n + 1
  {
  }

  // The loaded range ends at or below the copy of the boot sector that does the loading
  // exactly when syssize is at most 0x7FFF.
  lemma LoaderSparesItself(syssize: Word)
    ensures LOAD_ADDRESS + 512 * SectorsLoaded(syssize) <= BOOT_SECTOR_COPY <==> syssize <= 0x7FFF
  {
  }
}
