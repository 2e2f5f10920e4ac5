// The rings of the kernel seen as sequences of task numbers: what the pointer surgery of
// list.c means, and when each task is on at most one ring.
module Queues {
  import opened Layout

  type Rings = seq<seq<TaskId>>

  ghost predicate NoDup(q: seq<TaskId>) {
    forall i, j :: 0 <= i < j < |q| ==> q[i] != q[j]
  }

  // Every task is at most once on at most one ring.
  ghost predicate Disjoint(rings: Rings) {
    && (forall r :: 0 <= r < |rings| ==> NoDup(rings[r]))
    && (forall r1, r2, p: TaskId ::
          0 <= r1 < |rings| && 0 <= r2 < |rings| && p in rings[r1] && p in rings[r2] ==> r1 == r2)
  }

  ghost predicate Placed(rings: Rings, p: TaskId) {
    exists r :: 0 <= r < |rings| && p in rings[r]
  }

  function Append(rings: Rings, r: nat, p: TaskId): (rings': Rings)
    requires r < |rings|
    ensures |rings'| == |rings|
    ensures forall i, x: TaskId :: 0 <= i < |rings| ==>
                                     (x in rings'[i] <==> x in rings[i] || (i == r && x == p))
  {
    rings[r := rings[r] + [p]]
  }

  function Pop(rings: Rings, r: nat): (rings': Rings)
    requires r < |rings| && rings[r] != []
    ensures |rings'| == |rings|
  {
    rings[r := rings[r][1..]]
  }

  // The task at place k of ring r taken out.
  function RemoveAt(rings: Rings, r: nat, k: nat): (rings': Rings)
    requires r < |rings| && k < |rings[r]|
    ensures |rings'| == |rings|
  {
    rings[r := rings[r][..k] + rings[r][k + 1..]]
  }

  // Moving a task that is on no ring to the tail of one keeps the rings disjoint.
  lemma AppendDisjoint(rings: Rings, r: nat, p: TaskId)
    requires r < |rings| && Disjoint(rings) && !Placed(rings, p)
    ensures Disjoint(Append(rings, r, p))
    ensures forall x: TaskId :: Placed(Append(rings, r, p), x) <==> Placed(rings, x) || x == p
  {
    var rings' := Append(rings, r, p);
    forall x: TaskId ensures Placed(rings', x) <==> Placed(rings, x) || x == p {
      if x == p { assert x in rings'[r]; }
      if Placed(rings, x) {
        var i :| 0 <= i < |rings| && x in rings[i];
        assert x in rings'[i];
      }
    }
    assert p !in rings[r];
    assert NoDup(rings'[r]);
  }

  lemma OtherMembers(q: seq<TaskId>, k: nat)
    requires k < |q| && NoDup(q)
    ensures NoDup(q[..k] + q[k + 1..])
    ensures forall x: TaskId :: x in q[..k] + q[k + 1..] <==> x in q && x != q[k]
  {
    var t := q[..k] + q[k + 1..];
    assert forall i :: 0 <= i < |t| ==> t[i] == q[if i < k then i else i + 1];
    forall x: TaskId ensures x in t <==> x in q && x != q[k] {
      if x in q && x != q[k] {
        var i :| 0 <= i < |q| && q[i] == x;
        assert t[if i < k then i else i - 1] == x;
      }
    }
  }

  lemma TailMembers(q: seq<TaskId>)
    requires q != [] && NoDup(q)
    ensures NoDup(q[1..])
    ensures forall x: TaskId :: x in q[1..] <==> x in q && x != q[0]
  {
    OtherMembers(q, 0);
    assert q[..0] + q[1..] == q[1..];
  }

  // Taking a task off a ring leaves it on no ring, and every other task where it was.
  lemma RemoveDisjoint(rings: Rings, r: nat, k: nat)
    requires r < |rings| && Disjoint(rings) && k < |rings[r]|
    ensures var p := rings[r][k]; var rings' := RemoveAt(rings, r, k);
            && Disjoint(rings')
            && !Placed(rings', p)
            && forall i, x: TaskId :: 0 <= i < |rings| ==> (x in rings'[i] <==> x in rings[i] && x != p)
    ensures forall x: TaskId :: Placed(RemoveAt(rings, r, k), x) <==> Placed(rings, x) && x != rings[r][k]
  {
    var p := rings[r][k];
    var rings' := RemoveAt(rings, r, k);
    OtherMembers(rings[r], k);
    forall i, x: TaskId | 0 <= i < |rings| ensures x in rings'[i] <==> x in rings[i] && x != p {
      if i != r { assert p in rings[r]; assert p !in rings[i]; }
    }
    forall x: TaskId ensures Placed(rings', x) <==> Placed(rings, x) && x != p {
      if Placed(rings, x) && x != p {
        var i :| 0 <= i < |rings| && x in rings[i];
        assert x in rings'[i];
      }
    }
  }

  lemma RemoveFirst(rings: Rings, r: nat)
    requires r < |rings| && rings[r] != []
    ensures RemoveAt(rings, r, 0) == Pop(rings, r)
  {
    assert rings[r][..0] + rings[r][1..] == rings[r][1..];
  }

  lemma PopDisjoint(rings: Rings, r: nat)
    requires r < |rings| && Disjoint(rings) && rings[r] != []
    ensures var p := rings[r][0];
            && Disjoint(Pop(rings, r))
            && !Placed(Pop(rings, r), p)
            && forall i, x: TaskId :: 0 <= i < |rings| ==>
                                        (x in Pop(rings, r)[i] <==> x in rings[i] && x != p)
    ensures forall x: TaskId :: Placed(Pop(rings, r), x) <==> Placed(rings, x) && x != rings[r][0]
  {
    RemoveDisjoint(rings, r, 0);
    RemoveFirst(rings, r);
  }

  // The set of tasks on a duplicate-free ring is as large as the ring.
  lemma {:induction false} RingSize(q: seq<TaskId>)
    requires NoDup(q)
    ensures |set x: TaskId | x in q| == |q|
  {
    if q == [] {
      assert (set x: TaskId | x in q) == {};
    } else {
      TailMembers(q);
      RingSize(q[1..]);
      assert (set x: TaskId | x in q) == (set x: TaskId | x in q[1..]) + {q[0]};
    }
  }
}
