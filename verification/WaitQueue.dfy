/** Queues of suspended threads, as sequences: what _ipc_list_suspend, rt_thread_resume and a timeout do to
    the `suspend_thread` list of an IPC object (ipc.c:109-191). */
module WaitQueue {
  import opened Sequences

  type Tid = nat
  datatype Option<+T> = None | Some(value: T)
  datatype Flag = Fifo | ByPriority    // RT_IPC_FLAG_FIFO, RT_IPC_FLAG_PRIO

  /** A thread's current_priority; smaller is more urgent. */
  function PrioOf(prio: map<Tid, nat>, t: Tid): nat
  {
    if t in prio then prio[t] else 0xff
  }

  /** RT_IPC_FLAG_PRIO: before the first thread of strictly lower urgency. */
  function Insert(q: seq<Tid>, t: Tid, prio: map<Tid, nat>): seq<Tid>
  {
    if q == [] then [t]
    else if PrioOf(prio, t) < PrioOf(prio, q[0]) then [t] + q
    else [q[0]] + Insert(q[1..], t, prio)
  }

  function Suspend(q: seq<Tid>, t: Tid, prio: map<Tid, nat>, flag: Flag): seq<Tid>
  {
    match flag case Fifo => q + [t] case ByPriority => Insert(q, t, prio)
  }

  ghost predicate Sorted(q: seq<Tid>, prio: map<Tid, nat>)
  {
    forall i, j :: 0 <= i < j < |q| ==> PrioOf(prio, q[i]) <= PrioOf(prio, q[j])
  }

  // ----- Insert -----

  /** Where Insert puts `t`: behind everyone at least as urgent who comes first, ahead of the first less urgent. */
  ghost function Place(q: seq<Tid>, t: Tid, prio: map<Tid, nat>): (k: nat)
    ensures k <= |q|
    ensures forall i :: 0 <= i < k ==> PrioOf(prio, q[i]) <= PrioOf(prio, t)
    ensures k < |q| ==> PrioOf(prio, t) < PrioOf(prio, q[k])
  {
    if q == [] || PrioOf(prio, t) < PrioOf(prio, q[0]) then 0 else 1 + Place(q[1..], t, prio)
  }

  lemma {:induction false} InsertAtPlace(q: seq<Tid>, t: Tid, prio: map<Tid, nat>)
    ensures Insert(q, t, prio) == q[..Place(q, t, prio)] + [t] + q[Place(q, t, prio)..]
  {
    if q != [] && PrioOf(prio, t) >= PrioOf(prio, q[0]) {
      InsertAtPlace(q[1..], t, prio);
      SpliceTail(q, Place(q[1..], t, prio), t);
    }
  }

  /** Where a suspended thread joins: last, or in front of the first thread that is less urgent. */
  lemma SuspendJoins(q: seq<Tid>, t: Tid, prio: map<Tid, nat>, flag: Flag) returns (k: nat)
    requires t in prio && forall x :: x in q ==> x in prio
    ensures k <= |q| && Suspend(q, t, prio, flag) == q[..k] + [t] + q[k..]
    ensures flag == Fifo ==> k == |q|
    ensures flag == ByPriority ==> forall i :: 0 <= i < k ==> prio[q[i]] <= prio[t]
    ensures flag == ByPriority && k < |q| ==> prio[t] < prio[q[k]]
  {
    if flag == Fifo {
      k := |q|;
      assert q[..k] + [t] + q[k..] == q + [t];
    } else {
      k := Place(q, t, prio);
      InsertAtPlace(q, t, prio);
      forall i | 0 <= i < |q| ensures PrioOf(prio, q[i]) == prio[q[i]] { assert q[i] in q; }
    }
  }

  lemma SpliceTail(q: seq<Tid>, k: nat, t: Tid)
    requires k < |q|
    ensures [q[0]] + (q[1..][..k] + [t] + q[1..][k..]) == q[..k + 1] + [t] + q[k + 1..]
  {
    assert q[..k + 1] == [q[0]] + q[1..][..k];
    assert q[k + 1..] == q[1..][k..];
  }

  lemma HeadIsLeast(q: seq<Tid>, prio: map<Tid, nat>)
    requires Sorted(q, prio) && q != []
    ensures Sorted(q[1..], prio) && forall x :: x in q[1..] ==> PrioOf(prio, q[0]) <= PrioOf(prio, x)
  {
    forall x | x in q[1..] ensures PrioOf(prio, q[0]) <= PrioOf(prio, x) {
      var m :| 0 <= m < |q[1..]| && q[1..][m] == x;
      assert q[m + 1] == x;
    }
  }

  lemma ConsSorted(h: Tid, r: seq<Tid>, prio: map<Tid, nat>)
    requires Sorted(r, prio) && forall x :: x in r ==> PrioOf(prio, h) <= PrioOf(prio, x)
    ensures Sorted([h] + r, prio)
  {
    var q := [h] + r;
    forall i, j | 0 <= i < j < |q| ensures PrioOf(prio, q[i]) <= PrioOf(prio, q[j]) {
      assert q[j] == r[j - 1];
      if i > 0 { assert q[i] == r[i - 1]; }
    }
  }

  lemma {:induction false} InsertKeepsSorted(q: seq<Tid>, t: Tid, prio: map<Tid, nat>)
    requires Sorted(q, prio)
    ensures Sorted(Insert(q, t, prio), prio)
  {
    if q == [] {
    } else {
      HeadIsLeast(q, prio);
      if PrioOf(prio, t) < PrioOf(prio, q[0]) {
        assert q == [q[0]] + q[1..];
        ConsSorted(t, q, prio);
      } else {
        InsertKeepsSorted(q[1..], t, prio);
        SuspendMembers(q[1..], t, prio, ByPriority);
        ConsSorted(q[0], Insert(q[1..], t, prio), prio);
      }
    }
  }

  lemma SuspendMembers(q: seq<Tid>, t: Tid, prio: map<Tid, nat>, flag: Flag)
    ensures |Suspend(q, t, prio, flag)| == |q| + 1
    ensures forall x :: x in Suspend(q, t, prio, flag) <==> x == t || x in q
    ensures NoDup(q) && t !in q ==> NoDup(Suspend(q, t, prio, flag))
  {
    InsertAtPlace(q, t, prio);
    SpliceMembers(q, Place(q, t, prio), t);
    SpliceMembers(q, |q|, t);
    assert q[..|q|] + [t] + q[|q|..] == q + [t];
  }

  lemma SpliceMembers(q: seq<Tid>, k: nat, t: Tid)
    requires k <= |q|
    ensures forall x :: x in q[..k] + [t] + q[k..] <==> x == t || x in q
    ensures NoDup(q) && t !in q ==> NoDup(q[..k] + [t] + q[k..])
  {
    var r := q[..k] + [t] + q[k..];
    forall x ensures x in r <==> x == t || x in q {
      assert q == q[..k] + q[k..];
    }
    if NoDup(q) && t !in q {
      forall i, j | 0 <= i < j < |r| ensures r[i] != r[j] {
        var i', j' := if i < k then i else i - 1, if j < k then j else j - 1;
        assert i != k ==> r[i] == q[i'];
        assert j != k ==> r[j] == q[j'];
      }
    }
  }

  // ----- leaving -----

  lemma {:induction false} WithoutKeepsSorted(q: seq<Tid>, t: Tid, prio: map<Tid, nat>)
    requires Sorted(q, prio) && NoDup(q)
    ensures Sorted(Without(q, t), prio)
  {
    if q != [] {
      HeadIsLeast(q, prio);
      WithoutKeepsSorted(q[1..], t, prio);
      WithoutMembers(q[1..], t);
      ConsSorted(q[0], Without(q[1..], t), prio);
    }
  }

  // ----- the queue is the stable priority sort of the arrival order -----

  /** Threads in order of arrival, sorted by priority with first come first served among equals. */
  ghost function ServeOrder(arrivals: seq<Tid>, prio: map<Tid, nat>): seq<Tid>
  {
    if arrivals == [] then []
    else Insert(ServeOrder(arrivals[..|arrivals| - 1], prio), arrivals[|arrivals| - 1], prio)
  }

  lemma {:induction false} ServeOrderFacts(arrivals: seq<Tid>, prio: map<Tid, nat>)
    requires NoDup(arrivals)
    ensures Sorted(ServeOrder(arrivals, prio), prio) && NoDup(ServeOrder(arrivals, prio))
    ensures forall x :: x in ServeOrder(arrivals, prio) <==> x in arrivals
  {
    if arrivals != [] {
      var n := |arrivals| - 1;
      var front, t := arrivals[..n], arrivals[n];
      assert arrivals == front + [t];
      ServeOrderFacts(front, prio);
      InsertKeepsSorted(ServeOrder(front, prio), t, prio);
      SuspendMembers(ServeOrder(front, prio), t, prio, ByPriority);
    }
  }

  /** Leaving a sorted queue and joining it commute. */
  lemma {:induction false} InsertWithoutCommute(q: seq<Tid>, t: Tid, x: Tid, prio: map<Tid, nat>)
    requires Sorted(q, prio) && t !in q && x != t
    ensures Without(Insert(q, t, prio), x) == Insert(Without(q, x), t, prio)
  {
    if q == [] {
    } else if PrioOf(prio, t) < PrioOf(prio, q[0]) {
      assert ([t] + q)[1..] == q;
      if q[0] == x {
        if |q| > 1 { assert PrioOf(prio, q[0]) <= PrioOf(prio, q[1]); }
      }
    } else {
      var i := Insert(q[1..], t, prio);
      assert ([q[0]] + i)[1..] == i;
      if q[0] != x {
        InsertWithoutCommute(q[1..], t, x, prio);
        var w := Without(q[1..], x);
        assert ([q[0]] + w)[1..] == w;
      }
    }
  }

  lemma {:induction false} WithoutInserted(q: seq<Tid>, t: Tid, prio: map<Tid, nat>)
    requires t !in q
    ensures Without(Insert(q, t, prio), t) == q
  {
    if q == [] {
    } else if PrioOf(prio, t) < PrioOf(prio, q[0]) {
      assert ([t] + q)[1..] == q;
    } else {
      var i := Insert(q[1..], t, prio);
      assert ([q[0]] + i)[1..] == i;
      WithoutInserted(q[1..], t, prio);
    }
  }

  /** A thread that leaves, by wake-up or timeout, leaves the others in the order they would have had anyway. */
  lemma {:induction false} ServeOrderWithout(arrivals: seq<Tid>, t: Tid, prio: map<Tid, nat>)
    requires NoDup(arrivals)
    ensures Without(ServeOrder(arrivals, prio), t) == ServeOrder(Without(arrivals, t), prio)
  {
    if arrivals == [] {
    } else {
      var n := |arrivals| - 1;
      var front, last := arrivals[..n], arrivals[n];
      ServeOrderFacts(front, prio);
      if last == t {
        WithoutInserted(ServeOrder(front, prio), t, prio);
        WithoutLast(arrivals);
      } else {
        InsertWithoutCommute(ServeOrder(front, prio), last, t, prio);
        ServeOrderWithout(front, t, prio);
        WithoutFront(arrivals, t);
        var w := Without(front, t);
        assert (w + [last])[..|w|] == w;
      }
    }
  }
}
