/** The intrusive circular lists of rtservice.h, and the wait-list routines of ipc.c that run on them.

    A list is a ring of nodes threaded through a head; `s` is the row of nodes from the head's `next`
    round to its `prev`.  Each thread's node carries the thread's id (rt_list_entry). */
module RtList {
  import opened WaitQueue

  class ListNode {
    const tid: Tid
    var next: ListNode
    var prev: ListNode

    /** rt_list_init */
    constructor (tid: Tid)
      ensures this.tid == tid && next == this && prev == this
    {
      this.tid := tid;
      next, prev := this, this;
    }
  }

  /** The `i`-th node of the ring; both 0 and |s| + 1 are the head. */
  ghost function At(head: ListNode, s: seq<ListNode>, i: int): ListNode
  {
    if 0 < i <= |s| then s[i - 1] else head
  }

  ghost predicate Joined(head: ListNode, s: seq<ListNode>, i: int)
    reads head, s
  {
    At(head, s, i).next == At(head, s, i + 1) && At(head, s, i + 1).prev == At(head, s, i)
  }

  ghost predicate Distinct(head: ListNode, s: seq<ListNode>)
  {
    head !in s && forall i, j :: 0 <= i < j < |s| ==> s[i] != s[j]
  }

  ghost predicate Ring(head: ListNode, s: seq<ListNode>)
    reads head, s
  {
    Distinct(head, s) && forall i :: 0 <= i <= |s| ==> Joined(head, s, i)
  }

  lemma AtDistinct(head: ListNode, s: seq<ListNode>, i: int, j: int)
    requires Distinct(head, s) && 0 <= i <= |s| && 0 <= j <= |s|
    ensures At(head, s, i) == At(head, s, j) <==> i == j
  {
  }

  ghost function Tids(s: seq<ListNode>): seq<Tid>
  {
    if s == [] then [] else [s[0].tid] + Tids(s[1..])
  }

  lemma {:induction false} TidsConcat(a: seq<ListNode>, b: seq<ListNode>)
    ensures Tids(a + b) == Tids(a) + Tids(b)
  {
    if a == [] {
      assert a + b == b;
    } else {
      TidsConcat(a[1..], b);
      assert (a + b)[1..] == a[1..] + b && (a + b)[0] == a[0];
      assert [a[0].tid] + (Tids(a[1..]) + Tids(b)) == [a[0].tid] + Tids(a[1..]) + Tids(b);
    }
  }

  lemma {:induction false} TidsAt(s: seq<ListNode>, k: nat)
    requires k < |s|
    ensures |Tids(s)| == |s| && Tids(s)[k] == s[k].tid && Tids(s[..k]) == Tids(s)[..k] && Tids(s[k..]) == Tids(s)[k..]
  {
    if k == 0 {
      assert s[0..] == s;
      if |s| > 1 { TidsAt(s[1..], 0); }
    } else {
      TidsAt(s[1..], k - 1);
      assert s[..k] == [s[0]] + s[1..][..k - 1];
      assert s[..k][1..] == s[1..][..k - 1];
      assert s[k..] == s[1..][k - 1..];
    }
  }

  // ----- rtservice.h -----

  /** rt_list_insert_before: `l` is the node at ring position k + 1. */
  method InsertBefore(l: ListNode, n: ListNode, ghost head: ListNode, ghost s: seq<ListNode>, ghost k: nat)
    requires Ring(head, s) && k <= |s| && l == At(head, s, k + 1) && n != head && n !in s
    modifies head, s, n
    ensures Ring(head, s[..k] + [n] + s[k..])
  {
    ghost var r := s[..k] + [n] + s[k..];
    assert Joined(head, s, k);
    l.prev.next := n;
    n.prev := l.prev;
    l.prev := n;
    n.next := l;
    forall i | 0 <= i <= |r| ensures Joined(head, r, i) {
      assert At(head, r, i) == if i <= k then At(head, s, i) else if i == k + 1 then n else At(head, s, i - 1);
      assert At(head, r, i + 1) == if i < k then At(head, s, i + 1) else if i == k then n else At(head, s, i);
      if i != k && i != k + 1 {
        var j := if i < k then i else i - 1;
        assert old(Joined(head, s, j));
        InsertAway(head, s, k, j);
      }
    }
  }

  lemma InsertAway(head: ListNode, s: seq<ListNode>, k: nat, i: nat)
    requires Distinct(head, s) && k <= |s| && i <= |s| && i != k
    ensures At(head, s, i) != At(head, s, k) && At(head, s, i + 1) != At(head, s, k + 1)
  {
    AtDistinct(head, s, i, k);
  }

  /** rt_list_insert_after: `l` is the node at ring position k. */
  method InsertAfter(l: ListNode, n: ListNode, ghost head: ListNode, ghost s: seq<ListNode>, ghost k: nat)
    requires Ring(head, s) && k <= |s| && l == At(head, s, k) && n != head && n !in s
    modifies head, s, n
    ensures Ring(head, s[..k] + [n] + s[k..])
  {
    ghost var r := s[..k] + [n] + s[k..];
    assert Joined(head, s, k);
    l.next.prev := n;
    n.next := l.next;
    l.next := n;
    n.prev := l;
    forall i | 0 <= i <= |r| ensures Joined(head, r, i) {
      assert At(head, r, i) == if i <= k then At(head, s, i) else if i == k + 1 then n else At(head, s, i - 1);
      assert At(head, r, i + 1) == if i < k then At(head, s, i + 1) else if i == k then n else At(head, s, i);
      if i != k && i != k + 1 {
        var j := if i < k then i else i - 1;
        assert old(Joined(head, s, j));
        InsertAway(head, s, k, j);
      }
    }
  }

  /** rt_list_remove: node `k` of the row leaves and becomes a ring of its own. */
  method Remove(n: ListNode, ghost head: ListNode, ghost s: seq<ListNode>, ghost k: nat)
    requires Ring(head, s) && k < |s| && n == s[k]
    modifies head, s
    ensures Ring(head, s[..k] + s[k + 1..]) && n.next == n && n.prev == n
  {
    ghost var r := s[..k] + s[k + 1..];
    assert Joined(head, s, k) && Joined(head, s, k + 1);
    n.next.prev := n.prev;
    n.prev.next := n.next;
    n.next, n.prev := n, n;
    forall i | 0 <= i <= |r| ensures Joined(head, r, i) {
      assert At(head, r, i) == if i <= k then At(head, s, i) else At(head, s, i + 1);
      assert At(head, r, i + 1) == if i < k then At(head, s, i + 1) else At(head, s, i + 2);
      var j := if i < k then i else i + 1;
      assert old(Joined(head, s, j)) && old(Joined(head, s, k)) && old(Joined(head, s, k + 1));
      RemoveAway(head, s, k, i);
    }
  }

  lemma RemoveAway(head: ListNode, s: seq<ListNode>, k: nat, i: nat)
    requires Distinct(head, s) && k < |s| && i < |s|
    ensures i != k ==> At(head, s, if i < k then i else i + 1) != At(head, s, k)
    ensures i != k + 1 && i != k ==> At(head, s, if i < k then i else i + 1) != At(head, s, k + 1)
    ensures At(head, s, if i < k then i + 1 else i + 2) != At(head, s, k + 1)
    ensures i != k ==> At(head, s, if i < k then i + 1 else i + 2) != At(head, s, k + 2)
    ensures At(head, s, if i <= k then i else i + 1) != At(head, s, k + 1)
    ensures i != k ==> At(head, s, if i <= k then i else i + 1) != At(head, s, k)
  {
  }

  /** rt_list_isempty. */
  method IsEmpty(head: ListNode, ghost s: seq<ListNode>) returns (r: bool)
    requires Ring(head, s)
    ensures r <==> s == []
  {
    assert Joined(head, s, 0);
    r := head.next == head;
  }

  /** rt_list_len. */
  method Len(head: ListNode, ghost s: seq<ListNode>) returns (len: nat)
    requires Ring(head, s)
    ensures len == |s|
  {
    var p := head;
    len := 0;
    assert Joined(head, s, 0);
    while p.next != head
      invariant len <= |s| && p == At(head, s, len) && Joined(head, s, len)
      decreases |s| - len
    {
      p := p.next;
      len := len + 1;
      assert Joined(head, s, len);
    }
  }

  // ----- ipc.c -----

  const RT_ERROR := 1

  /** _ipc_list_suspend, once the thread itself has been suspended. */
  method ListSuspend(head: ListNode, n: ListNode, flag: Flag, prio: map<Tid, nat>, ghost s: seq<ListNode>)
    returns (ghost r: seq<ListNode>)
    requires Ring(head, s) && n != head && n !in s
    modifies head, s, n
    ensures Ring(head, r) && Tids(r) == Suspend(Tids(s), n.tid, prio, flag)
    ensures exists k: nat :: k <= |s| && r == s[..k] + [n] + s[k..]
  {
    if flag == Fifo {
      InsertBefore(head, n, head, s, |s|);
      r := s[..|s|] + [n] + s[|s|..];
      SpliceTids(s, n, |s|);
      return;
    }
    ghost var q, k := Tids(s), 0;
    assert Joined(head, s, 0);
    var p := head.next;
    TidsLength(s);
    while p != head
      invariant Ring(head, s) && k <= |s| && p == At(head, s, k + 1)
      invariant forall i :: 0 <= i < k ==> PrioOf(prio, q[i]) <= PrioOf(prio, n.tid)
      decreases |s| - k
    {
      TidsAt(s, k);
      if PrioOf(prio, n.tid) < PrioOf(prio, p.tid) {
        InsertBefore(p, n, head, s, k);
        break;
      }
      assert Joined(head, s, k + 1);
      p := p.next;
      k := k + 1;
    }
    if p == head {
      InsertBefore(head, n, head, s, k);
    }
    r := s[..k] + [n] + s[k..];
    SpliceTids(s, n, k);
    PlaceIs(q, n.tid, prio, k);
  }

  lemma TidsLength(s: seq<ListNode>)
    ensures |Tids(s)| == |s|
  {
    if s != [] { TidsAt(s, 0); }
  }

  lemma SpliceTids(s: seq<ListNode>, n: ListNode, k: nat)
    requires k <= |s|
    ensures |Tids(s)| == |s| && Tids(s[..k] + [n] + s[k..]) == Tids(s)[..k] + [n.tid] + Tids(s)[k..]
  {
    TidsLength(s);
    if k < |s| { TidsAt(s, k); } else { assert s[..k] == s && s[k..] == []; }
    TidsConcat(s[..k] + [n], s[k..]);
    TidsConcat(s[..k], [n]);
  }

  lemma PlaceIs(q: seq<Tid>, t: Tid, prio: map<Tid, nat>, k: nat)
    requires k <= |q|
    requires forall i :: 0 <= i < k ==> PrioOf(prio, q[i]) <= PrioOf(prio, t)
    requires k < |q| ==> PrioOf(prio, t) < PrioOf(prio, q[k])
    ensures Insert(q, t, prio) == q[..k] + [t] + q[k..]
  {
    InsertAtPlace(q, t, prio);
    var p := Place(q, t, prio);
  }

  lemma TidsHead(s: seq<ListNode>)
    requires s != []
    ensures Tids(s) != [] && Tids(s)[0] == s[0].tid && Tids(s[1..]) == Tids(s)[1..]
  {
  }

  /** _ipc_list_resume: rt_thread_resume takes the first thread off the list. */
  method ListResume(head: ListNode, ghost s: seq<ListNode>) returns (t: Tid)
    requires Ring(head, s) && s != []
    modifies head, s
    ensures Ring(head, s[1..]) && t == Tids(s)[0] && Tids(s[1..]) == Tids(s)[1..]
  {
    TidsHead(s);
    hide Tids;
    assert Joined(head, s, 0);
    var n := head.next;
    t := n.tid;
    Remove(n, head, s, 0);
    assert s[..0] + s[1..] == s[1..];
  }

  /** _ipc_list_resume_all: everyone leaves, in queue order, with the error -RT_ERROR.  `errors` are the threads'
      error fields. */
  method ListResumeAll(head: ListNode, before: map<Tid, int>, ghost s: seq<ListNode>)
    returns (woken: seq<Tid>, errors: map<Tid, int>)
    requires Ring(head, s)
    modifies head, s
    ensures Ring(head, []) && woken == Tids(s)
    ensures forall t :: t in woken ==> t in errors && errors[t] == -RT_ERROR
    ensures forall t :: t in before && t !in woken ==> t in errors && errors[t] == before[t]
  {
    woken, errors := [], before;
    ghost var k := 0;
    TidsLength(s);
    assert s[0..] == s;
    assert Joined(head, s, 0);
    while head.next != head
      invariant k <= |s| && Ring(head, s[k..])
      invariant woken == Tids(s)[..k] && (head.next == head <==> k == |s|)
      invariant forall t :: t in woken ==> t in errors && errors[t] == -RT_ERROR
      invariant forall t :: t in before && t !in woken ==> t in errors && errors[t] == before[t]
      decreases |s| - k
    {
      ghost var rest := s[k..];
      var t := ListResume(head, rest);
      errors := errors[t := -RT_ERROR];
      woken := woken + [t];
      TidsAt(s, k);
      k := k + 1;
      assert rest[1..] == s[k..];
      assert Joined(head, s[k..], 0);
    }
    assert s[k..] == [];
  }
}
