// circbuff.c: the keyboard's ring of 666 bytes, and the bounded queue it is.
module CircularBuffer {

  const CIRCBUFF_SIZE := 666

  // The i-th cell from `first` on, going round the ring.
  function Place(first: nat, i: nat): (p: nat)
    requires first < CIRCBUFF_SIZE && i <= CIRCBUFF_SIZE
    ensures p == (first + i) % CIRCBUFF_SIZE && p < CIRCBUFF_SIZE
  {
    if first + i < CIRCBUFF_SIZE then first + i else first + i - CIRCBUFF_SIZE
  }

  // The bytes of a ring that start at `first`, oldest first.
  function Window(cells: seq<bv8>, first: nat, count: nat): (q: seq<bv8>)
    requires |cells| == CIRCBUFF_SIZE && first < CIRCBUFF_SIZE && count <= CIRCBUFF_SIZE
  {
    seq(count, i requires 0 <= i < count => cells[Place(first, i)])
  }

  // The bounded queue: what the ring is for.
  function Push(q: seq<bv8>, k: bv8): (r: seq<bv8>) {
    if |q| == CIRCBUFF_SIZE then q else q + [k]
  }

  function Pop(q: seq<bv8>): (r: seq<bv8>) {
    if q == [] then q else q[1..]
  }

  // keybuffer, with the pointers circbuffptr_first and circbuffptr_last as indices into it.
  class KeyBuffer {
    var cells: array<bv8>
    var first: nat
    var last: nat
    var counter: nat

    ghost predicate Valid()
      reads this
    {
      && cells.Length == CIRCBUFF_SIZE && first < CIRCBUFF_SIZE && counter <= CIRCBUFF_SIZE
      && last == Place(first, counter)
    }

    ghost function Contents(): (q: seq<bv8>)
      requires Valid()
      reads this, cells
    {
      Window(cells[..], first, counter)
    }

    // init_circbuff
    constructor ()
      ensures Valid() && fresh(cells) && Contents() == []
    {
      cells := new bv8[CIRCBUFF_SIZE];
      first, last, counter := 0, 0, 0;
    }

    predicate Full()
      requires Valid()
      reads this, cells
      ensures Full() <==> |Contents()| == CIRCBUFF_SIZE
    {
      counter == cells.Length
    }

    predicate Empty()
      requires Valid()
      reads this, cells
      ensures Empty() <==> Contents() == []
    {
      counter == 0
    }

    function Count(): (n: nat)
      requires Valid()
      reads this, cells
      ensures n == |Contents()|
    {
      counter
    }

    function Front(): (k: bv8)
      requires Valid()
      reads this, cells
      ensures Contents() != [] ==> k == Contents()[0]
    {
      cells[first]
    }

    method PushKey(k: bv8)
      requires Valid()
      modifies this, cells
      ensures Valid() && cells == old(cells)
      ensures Contents() == Push(old(Contents()), k)
    {
      if !Full() {
        ghost var before := cells[..];
        cells[last] := k;
        WindowGrows(before, first, counter, k);
        last := last + 1;
        if last >= CIRCBUFF_SIZE { last := 0; }
        counter := counter + 1;
        assert cells[..] == before[Place(first, counter - 1) := k];
      }
    }

    method PopKey()
      requires Valid()
      modifies this
      ensures Valid() && cells == old(cells)
      ensures Contents() == Pop(old(Contents()))
    {
      if !Empty() {
        WindowShrinks(cells[..], first, counter);
        first := first + 1;
        if first >= CIRCBUFF_SIZE { first := 0; }
        counter := counter - 1;
      }
    }
  }

  lemma WindowGrows(cells: seq<bv8>, first: nat, count: nat, k: bv8)
    requires |cells| == CIRCBUFF_SIZE && first < CIRCBUFF_SIZE && count < CIRCBUFF_SIZE
    ensures Window(cells[Place(first, count) := k], first, count + 1) == Window(cells, first, count) + [k]
  {
    assert forall i :: 0 <= i < count ==> Place(first, i) != Place(first, count);
  }

  lemma WindowShrinks(cells: seq<bv8>, first: nat, count: nat)
    requires |cells| == CIRCBUFF_SIZE && first < CIRCBUFF_SIZE && 0 < count <= CIRCBUFF_SIZE
    ensures Window(cells, Place(first, 1), count - 1) == Window(cells, first, count)[1..]
  {
    assert forall i :: 0 <= i < count - 1 ==> Place(Place(first, 1), i) == Place(first, i + 1);
  }

  // A history of calls: bytes typed, and reads of the oldest byte.
  datatype Op = Typed(k: bv8) | Read

  datatype History = History(queue: seq<bv8>, accepted: seq<bv8>, delivered: seq<bv8>, dropped: nat)

  // A read takes the front byte and then pops, as the reader of the keyboard does.
  function Step(h: History, op: Op): (r: History) {
    match op
    case Typed(k) =>
      if |h.queue| == CIRCBUFF_SIZE then h.(queue := Push(h.queue, k), dropped := h.dropped + 1)
      else h.(queue := Push(h.queue, k), accepted := h.accepted + [k])
    case Read =>
      if h.queue == [] then h.(queue := Pop(h.queue))
      else h.(queue := Pop(h.queue), delivered := h.delivered + [h.queue[0]])
  }

  function Run(h: History, ops: seq<Op>): (r: History)
    decreases |ops|
  {
    if ops == [] then h else Run(Step(h, ops[0]), ops[1..])
  }

  // Every byte typed is dropped, read or waiting, in the order it was typed; never more than
  // 666 wait.
  lemma {:induction false} FirstInFirstOut(h: History, ops: seq<Op>)
    requires h.accepted == h.delivered + h.queue && |h.queue| <= CIRCBUFF_SIZE
    ensures var r := Run(h, ops);
            && r.accepted == r.delivered + r.queue && |r.queue| <= CIRCBUFF_SIZE
            && |r.accepted| + r.dropped == |h.accepted| + h.dropped + Typings(ops)
            && h.accepted <= r.accepted && h.delivered <= r.delivered
    decreases |ops|
  {
    if ops != [] {
      var s := Step(h, ops[0]);
      if ops[0].Read? && h.queue != [] {
        assert h.queue == [h.queue[0]] + h.queue[1..];
        assert s.delivered + s.queue == h.delivered + h.queue;
      } else {
        assert s.accepted == s.delivered + s.queue;
      }
      FirstInFirstOut(s, ops[1..]);
    }
  }

  function Typings(ops: seq<Op>): (n: nat) {
    if ops == [] then 0 else (if ops[0].Typed? then 1 else 0) + Typings(ops[1..])
  }

  // A read delivers the oldest unread byte, if there is one.
  lemma ReadDelivers(h: History)
    requires h.accepted == h.delivered + h.queue && |h.queue| <= CIRCBUFF_SIZE
    ensures var r := Step(h, Read); var n := |h.delivered|;
            && r.accepted == h.accepted && r.dropped == h.dropped
            && r.delivered == h.delivered + if n < |h.accepted| then [h.accepted[n]] else []
  {
  }

  // A byte is dropped exactly when 666 accepted bytes are still unread.
  lemma DroppedExactlyWhenFull(h: History, k: bv8)
    requires h.accepted == h.delivered + h.queue && |h.queue| <= CIRCBUFF_SIZE
    ensures Step(h, Typed(k)).dropped > h.dropped <==> |h.accepted| - |h.delivered| == CIRCBUFF_SIZE
  {
  }
}
