// list.c: intrusive circular doubly linked lists, as heap nodes with next and prev.
module Lists {

  // struct list_head. `id` stands for its address: which task_struct (or queue) it is part
  // of, so that list_head_to_task_struct is `id` itself.
  class ListHead {
    var next: ListHead?
    var prev: ListHead?
    const id: int

    constructor (id: int)
      ensures this.id == id && next == null && prev == null
    {
      this.id := id;
      next := null;
      prev := null;
    }
  }

  // The node at place i of the ring, its head standing before the first and after the last.
  ghost function At(head: ListHead, s: seq<ListHead>, i: int): ListHead {
    if 0 <= i < |s| then s[i] else head
  }

  // The ring through `head` holds the nodes of s in this order, linked both ways.
  ghost predicate Ring(head: ListHead, s: seq<ListHead>)
    reads head, s
  {
    Distinct(head, s) && Chained(head, s)
  }

  ghost predicate Distinct(head: ListHead, s: seq<ListHead>) {
    head !in s && (forall i, j :: 0 <= i < j < |s| ==> s[i] != s[j])
  }

  ghost predicate Chained(head: ListHead, s: seq<ListHead>)
    reads head, s
  {
    && head.next == At(head, s, 0) && head.prev == At(head, s, |s| - 1)
    && (forall i {:trigger s[i].next} :: 0 <= i < |s| ==> s[i].next == At(head, s, i + 1))
    && (forall i {:trigger s[i].prev} :: 0 <= i < |s| ==> s[i].prev == At(head, s, i - 1))
  }

  // A ring has one reading only: the heap determines the sequence.
  lemma {:induction false} RingUnique(head: ListHead, s: seq<ListHead>, t: seq<ListHead>)
    requires Ring(head, s) && Ring(head, t)
    ensures s == t
  {
    if |s| <= |t| { RingPrefix(head, s, t, |s|); } else { RingPrefix(head, t, s, |t|); }
  }

  lemma {:induction false} RingPrefix(head: ListHead, s: seq<ListHead>, t: seq<ListHead>, k: nat)
    requires Ring(head, s) && Ring(head, t) && k <= |s| <= |t|
    ensures s[..k] == t[..k] && At(head, s, k) == At(head, t, k)
    ensures k == |s| ==> |t| == |s|
  {
    if k > 0 {
      RingPrefix(head, s, t, k - 1);
      assert s[k - 1] == t[k - 1] && s[k - 1].next == At(head, s, k) == At(head, t, k);
    }
    assert k < |t| ==> t[k] in t;
  }

  method InitListHead(list: ListHead)
    modifies list
    ensures Ring(list, [])
  {
    list.next := list;
    list.prev := list;
  }

  // __list_add
  method Link(node: ListHead, prev: ListHead, next: ListHead)
    requires node != prev && node != next
    modifies node, prev, next
    ensures node.next == next && node.prev == prev && next.prev == node && prev.next == node
    ensures prev != next ==> prev.prev == old(prev.prev) && next.next == old(next.next)
  {
    next.prev := node;
    node.next := next;
    node.prev := prev;
    prev.next := node;
  }

  // list_add
  method ListAdd(node: ListHead, head: ListHead, ghost s: seq<ListHead>)
    requires Ring(head, s) && node !in s && node != head
    modifies node, head, s
    ensures Ring(head, [node] + s)
  {
    assert s != [] ==> s[0] in s;
    Link(node, head, head.next);
    ghost var t := [node] + s;
    forall i | 0 <= i < |t| ensures t[i].next == At(head, t, i + 1) && t[i].prev == At(head, t, i - 1) {
      if i > 0 { assert t[i] == s[i - 1] && s[i - 1] in s; }
    }
  }

  // list_add_tail
  method ListAddTail(node: ListHead, head: ListHead, ghost s: seq<ListHead>)
    requires Ring(head, s) && node !in s && node != head
    modifies node, head, s
    ensures Ring(head, s + [node])
  {
    assert s != [] ==> s[|s| - 1] in s;
    Link(node, head.prev, head);
    ghost var t := s + [node];
    forall i | 0 <= i < |t| ensures t[i].next == At(head, t, i + 1) && t[i].prev == At(head, t, i - 1) {
      if i < |s| { assert t[i] == s[i] && s[i] in s; }
    }
  }

  // All links of the ring but those of node k, which its neighbours bypass.
  ghost predicate Bypassed(head: ListHead, s: seq<ListHead>, k: nat)
    requires k < |s|
    reads head, s
  {
    && head.next == At(head, s, if k == 0 then 1 else 0)
    && head.prev == At(head, s, if k == |s| - 1 then |s| - 2 else |s| - 1)
    && (forall i {:trigger s[i].next} :: 0 <= i < |s| && i != k ==>
          s[i].next == At(head, s, if i + 1 == k then k + 1 else i + 1))
    && (forall i {:trigger s[i].prev} :: 0 <= i < |s| && i != k ==>
          s[i].prev == At(head, s, if i - 1 == k then k - 1 else i - 1))
  }

  function Without(s: seq<ListHead>, k: nat): (t: seq<ListHead>)
    requires k < |s|
    ensures |t| == |s| - 1
    ensures forall i :: 0 <= i < |t| ==> t[i] == s[if i < k then i else i + 1]
  {
    s[..k] + s[k + 1..]
  }

  lemma SkipAt(head: ListHead, s: seq<ListHead>, k: nat, j: int)
    requires k < |s| && -1 <= j < |s|
    ensures At(head, Without(s, k), j) == At(head, s, if j < k then j else j + 1)
  {
  }

  lemma WithoutDistinct(head: ListHead, s: seq<ListHead>, k: nat)
    requires k < |s| && Distinct(head, s)
    ensures Distinct(head, Without(s, k)) && s[k] !in Without(s, k)
  {
  }

  lemma BypassedAt(head: ListHead, s: seq<ListHead>, k: nat, i: nat)
    requires k < |s| && Bypassed(head, s, k) && i < |s| - 1
    ensures var t := Without(s, k);
            t[i].next == At(head, t, i + 1) && t[i].prev == At(head, t, i - 1)
  {
    var o := if i < k then i else i + 1;
    SkipAt(head, s, k, i + 1);
    SkipAt(head, s, k, i - 1);
    assert s[o].next == At(head, s, if o + 1 == k then k + 1 else o + 1);
    assert s[o].prev == At(head, s, if o - 1 == k then k - 1 else o - 1);
  }

  lemma BypassedHead(head: ListHead, s: seq<ListHead>, k: nat)
    requires k < |s| && Bypassed(head, s, k)
    ensures var t := Without(s, k);
            head.next == At(head, t, 0) && head.prev == At(head, t, |t| - 1)
  {
    SkipAt(head, s, k, 0);
    SkipAt(head, s, k, |s| - 2);
  }

  lemma BypassedChain(head: ListHead, s: seq<ListHead>, k: nat)
    requires k < |s| && Bypassed(head, s, k)
    ensures Chained(head, Without(s, k))
  {
    hide Bypassed;
    hide Without;
    hide At;
    BypassedHead(head, s, k);
    var t := Without(s, k);
    forall i | 0 <= i < |t| ensures t[i].next == At(head, t, i + 1) && t[i].prev == At(head, t, i - 1) {
      BypassedAt(head, s, k, i);
    }
  }

  // __list_del
  method Unlink(prev: ListHead, next: ListHead)
    modifies prev, next
    ensures next.prev == prev && prev.next == next
    ensures prev != next ==> prev.prev == old(prev.prev) && next.next == old(next.next)
  {
    next.prev := prev;
    prev.next := next;
  }

  // list_del, which also clears the links of the node it takes out
  method ListDel(entry: ListHead, ghost head: ListHead, ghost s: seq<ListHead>, ghost k: nat)
    requires Ring(head, s) && k < |s| && s[k] == entry
    modifies head, s
    ensures Ring(head, Without(s, k))
    ensures entry.next == null && entry.prev == null
  {
    WithoutDistinct(head, s, k);
    assert s[k].next == At(head, s, k + 1);
    assert k > 0 ==> s[k - 1] in s;
    assert k + 1 < |s| ==> s[k + 1] in s;
    Unlink(entry.prev, entry.next);
    entry.next := null;
    entry.prev := null;
    assert Bypassed(head, s, k) by {
      forall i | 0 <= i < |s| && i != k
        ensures && s[i].next == At(head, s, if i + 1 == k then k + 1 else i + 1)
                && s[i].prev == At(head, s, if i - 1 == k then k - 1 else i - 1)
      {
        assert s[i] != s[k] && s[i] in s;
      }
    }
    BypassedChain(head, s, k);
  }

  // list_is_last
  method ListIsLast(list: ListHead, head: ListHead, ghost s: seq<ListHead>) returns (b: bool)
    requires Ring(head, s) && list in s
    ensures b <==> list == s[|s| - 1]
  {
    ghost var k :| 0 <= k < |s| && s[k] == list;
    assert s[k].next == At(head, s, k + 1);
    assert k + 1 < |s| ==> s[k + 1] in s;
    b := list.next == head;
  }

  // list_empty
  method ListEmpty(head: ListHead, ghost s: seq<ListHead>) returns (b: bool)
    requires Ring(head, s)
    ensures b <==> s == []
  {
    assert s != [] ==> s[0] in s;
    b := head.next == head;
  }
}
