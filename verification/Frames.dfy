// The byte map of physical frames: first fit over the even frames, and its algebra.
module Frames {
  import opened Layout

  type FrameNo = f: nat | f < TOTAL_PAGES

  // phys_mem: is frame f in use?
  type FrameMap = u: seq<bool> | |u| == TOTAL_PAGES witness seq(TOTAL_PAGES, _ => false)

  // The frame alloc_frame would pick when it has got as far as frame i; TOTAL_PAGES if none.
  function FirstFit(u: FrameMap, i: nat): (f: nat)
    requires NUM_PAG_KERNEL <= i <= TOTAL_PAGES && i % 2 == 0
    ensures i <= f <= TOTAL_PAGES && f % 2 == 0
    ensures f < TOTAL_PAGES ==> !u[f]
    ensures forall j :: i <= j < f && j % 2 == 0 ==> u[j]
    decreases TOTAL_PAGES - i
  {
    if i == TOTAL_PAGES || !u[i] then i else FirstFit(u, i + 2)
  }

  lemma FirstFitStep(u: FrameMap, i: nat)
    requires NUM_PAG_KERNEL <= i < TOTAL_PAGES && i % 2 == 0
    ensures FirstFit(u, i) == if u[i] then FirstFit(u, i + 2) else i
  {
  }

  function Mark(u: FrameMap, fs: seq<FrameNo>): (u': FrameMap)
    ensures forall i :: 0 <= i < TOTAL_PAGES ==> u'[i] == (u[i] || i in fs)
  {
    seq(TOTAL_PAGES, i requires 0 <= i < TOTAL_PAGES => u[i] || i in fs)
  }

  // What free_frame does to each of fs: it ignores frames up to 256 and out of range.
  function Release(u: FrameMap, fs: seq<FrameNo>): (u': FrameMap)
    ensures forall i :: 0 <= i < TOTAL_PAGES ==> u'[i] == (u[i] && !(i > NUM_PAG_KERNEL && i in fs))
  {
    seq(TOTAL_PAGES, i requires 0 <= i < TOTAL_PAGES => u[i] && !(i > NUM_PAG_KERNEL && i in fs))
  }

  function FreeFrame(u: FrameMap, f: FrameNo): (u': FrameMap)
  {
    if f > NUM_PAG_KERNEL then u[f := false] else u
  }

  lemma ReleaseOneMore(u: FrameMap, fs: seq<FrameNo>, f: FrameNo)
    ensures Release(u, fs + [f]) == FreeFrame(Release(u, fs), f)
  {
  }

  lemma MarkOneMore(u: FrameMap, fs: seq<FrameNo>, f: FrameNo)
    ensures Mark(u, fs + [f]) == Mark(u, fs)[f := true]
  {
  }

  lemma ReleaseTwice(u: FrameMap, a: seq<FrameNo>, b: seq<FrameNo>)
    ensures Release(Release(u, a), b) == Release(u, a + b)
  {
  }

  // n calls of alloc_frame in a row; None if one of them fails.
  function Take(u: FrameMap, n: nat): (r: Option<seq<FrameNo>>)
    ensures r.Some? ==> |r.value| == n
    ensures r.Some? ==> forall f :: f in r.value ==> NUM_PAG_KERNEL <= f && f % 2 == 0 && !u[f]
  {
    if n == 0 then Some([])
    else
      match Take(u, n - 1)
      case None => None
      case Some(fs) =>
        var f := FirstFit(Mark(u, fs), NUM_PAG_KERNEL);
        if f == TOTAL_PAGES then None else Some(fs + [f])
  }

  ghost predicate AllDistinct(fs: seq<FrameNo>) {
    forall i, j :: 0 <= i < j < |fs| ==> fs[i] != fs[j]
  }

  lemma {:induction false} TakeDistinct(u: FrameMap, n: nat)
    requires Take(u, n).Some?
    ensures AllDistinct(Take(u, n).value)
  {
    if n > 0 { TakeDistinct(u, n - 1); }
  }

  // First fit hands out the lowest free even frames.
  lemma {:induction false} TakeLowest(u: FrameMap, n: nat, g: nat)
    requires Take(u, n).Some? && NUM_PAG_KERNEL <= g < TOTAL_PAGES && g % 2 == 0 && !u[g]
    ensures forall f :: f in Take(u, n).value && g < f ==> g in Take(u, n).value
  {
    if n > 0 { TakeLowest(u, n - 1, g); }
  }

  // n calls of alloc_frame after the frames fs have been handed out.
  function TakeAfter(u: FrameMap, fs: seq<FrameNo>, n: nat): Option<seq<FrameNo>>
  {
    match Take(Mark(u, fs), n)
    case None => None
    case Some(more) => Some(fs + more)
  }

  // Taking a + b frames is taking a and then b.
  lemma {:induction false} TakeSum(u: FrameMap, a: nat, b: nat)
    ensures Take(u, a + b) == if Take(u, a).None? then None else TakeAfter(u, Take(u, a).value, b)
  {
    hide Take, TakeAfter, Mark;
    if b == 0 {
      TakeNone(u, a);
    } else {
      TakeSum(u, a, b - 1);
      TakeUnfold(u, a + b);
      if Take(u, a).Some? { TakeAfterStep(u, Take(u, a).value, b); }
    }
  }

  lemma TakeNone(u: FrameMap, a: nat)
    ensures Take(u, a).Some? ==> TakeAfter(u, Take(u, a).value, 0) == Take(u, a)
  {
    if Take(u, a).Some? { assert Take(u, a).value + [] == Take(u, a).value; }
  }

  lemma TakeAfterStep(u: FrameMap, fs: seq<FrameNo>, n: nat)
    requires n > 0
    ensures TakeAfter(u, fs, n) == (match TakeAfter(u, fs, n - 1)
                                    case None => None
                                    case Some(all) =>
                                      var f := FirstFit(Mark(u, all), NUM_PAG_KERNEL);
                                      if f == TOTAL_PAGES then None else Some(all + [f]))
  {
    var u1 := Mark(u, fs);
    if Take(u1, n - 1).Some? {
      var more := Take(u1, n - 1).value;
      MarkTwice(u, fs, more);
      var f := FirstFit(Mark(u1, more), NUM_PAG_KERNEL);
      if f < TOTAL_PAGES { assert fs + (more + [f]) == fs + more + [f]; }
    }
  }

  lemma TakeUnfold(u: FrameMap, n: nat)
    requires n > 0
    ensures Take(u, n) == (match Take(u, n - 1)
                           case None => None
                           case Some(fs) =>
                             var f := FirstFit(Mark(u, fs), NUM_PAG_KERNEL);
                             if f == TOTAL_PAGES then None else Some(fs + [f]))
  {
  }

  lemma MarkTwice(u: FrameMap, a: seq<FrameNo>, b: seq<FrameNo>)
    ensures Mark(Mark(u, a), b) == Mark(u, a + b)
  {
  }

  lemma ReleaseMarked(u: FrameMap, fs: seq<FrameNo>)
    requires forall f :: f in fs ==> NUM_PAG_KERNEL < f && !u[f]
    ensures Release(Mark(u, fs), fs) == u
  {
  }

  /* Counting */

  ghost function Evens(lo: nat): set<nat>
    requires lo <= TOTAL_PAGES
  {
    set f: nat | lo <= f < TOTAL_PAGES && f % 2 == 0
  }

  lemma {:induction false} EvensCount(lo: nat)
    requires lo <= TOTAL_PAGES && lo % 2 == 0
    ensures |Evens(lo)| == (TOTAL_PAGES - lo) / 2
    decreases TOTAL_PAGES - lo
  {
    if lo == TOTAL_PAGES {
      assert Evens(lo) == {};
    } else {
      EvensCount(lo + 2);
      assert Evens(lo) == {lo} + Evens(lo + 2);
    }
  }

  ghost function SetOf(fs: seq<FrameNo>): set<nat> {
    set f: nat | f in fs
  }

  lemma {:induction false} DistinctSize(fs: seq<FrameNo>)
    requires AllDistinct(fs)
    ensures |SetOf(fs)| == |fs|
  {
    if fs == [] {
      assert SetOf(fs) == {};
    } else {
      var k := |fs| - 1;
      DistinctSize(fs[..k]);
      assert fs[k] !in fs[..k];
      assert fs == fs[..k] + [fs[k]];
      assert SetOf(fs) == SetOf(fs[..k]) + {fs[k]};
    }
  }

  lemma SubsetSize(a: set<nat>, b: set<nat>)
    requires a <= b
    ensures |a| <= |b|
  {
    assert b == a + (b - a);
  }

  // Distinct even frames from 272 up: there are at most 376 of them.
  lemma AtMost376(fs: seq<FrameNo>)
    requires AllDistinct(fs) && forall f :: f in fs ==> 272 <= f && f % 2 == 0
    ensures |fs| <= 376
  {
    DistinctSize(fs);
    EvensCount(272);
    SubsetSize(SetOf(fs), Evens(272));
  }

  ghost function FreeEvens(u: FrameMap): set<nat> {
    set f: nat | NUM_PAG_KERNEL <= f < TOTAL_PAGES && f % 2 == 0 && !u[f]
  }

  // n frames can be had exactly when n even frames are free.
  lemma {:induction false} TakeSucceeds(u: FrameMap, n: nat)
    ensures Take(u, n).Some? <==> n <= |FreeEvens(u)|
  {
    if n > 0 {
      TakeSucceeds(u, n - 1);
      if Take(u, n - 1).Some? {
        TakeDistinct(u, n - 1);
        OneMore(u, Take(u, n - 1).value);
      }
    }
  }

  lemma OneMore(u: FrameMap, fs: seq<FrameNo>)
    requires AllDistinct(fs) && forall f :: f in fs ==> f in FreeEvens(u)
    ensures FirstFit(Mark(u, fs), NUM_PAG_KERNEL) < TOTAL_PAGES <==> |fs| < |FreeEvens(u)|
  {
    DistinctSize(fs);
    var left := FreeEvens(Mark(u, fs));
    assert FreeEvens(u) == SetOf(fs) + left;
    assert SetOf(fs) !! left;
    var f := FirstFit(Mark(u, fs), NUM_PAG_KERNEL);
    if f == TOTAL_PAGES { assert left == {}; } else { assert f in left; }
  }

  // If a shorter series of calls already fails, so does a longer one.
  lemma {:induction false} TakeFails(u: FrameMap, k: nat, n: nat)
    requires k <= n && Take(u, k).None?
    ensures Take(u, n).None?
  {
    if k < n { TakeFails(u, k, n - 1); }
  }
}
