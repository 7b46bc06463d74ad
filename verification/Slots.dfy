/** Pools of equal slots, numbered from 0, threaded through lists of links.  Shared by the message queue and the
    memory pool. */
module Slots {
  import opened Sequences

  const NULL := -1

  // ----- every slot is in exactly one place -----

  ghost predicate OnePlace(x: nat, free: seq<nat>, queue: seq<nat>, held: set<nat>)
  {
    || (x in free && x !in queue && x !in held)
    || (x !in free && x in queue && x !in held)
    || (x !in free && x !in queue && x in held)
  }

  ghost predicate InUse(x: nat, free: seq<nat>, queue: seq<nat>, held: set<nat>)
  {
    x in free || x in queue || x in held
  }

  /** The slots 0 .. n - 1, each exactly once. */
  ghost predicate Whole(free: seq<nat>, queue: seq<nat>, held: set<nat>, n: nat)
  {
    && NoDup(free) && NoDup(queue)
    && (forall x: nat :: x < n ==> OnePlace(x, free, queue, held))
    && (forall x: nat :: InUse(x, free, queue, held) ==> x < n)
    && |free| + |queue| + |held| == n
  }

  /** Off the free list into somebody's hands. */
  lemma TakeFree(free: seq<nat>, queue: seq<nat>, held: set<nat>, n: nat)
    requires Whole(free, queue, held, n) && free != []
    ensures free[0] !in held && Whole(free[1..], queue, held + {free[0]}, n)
  {
    HeadOf(free);
    assert InUse(free[0], free, queue, held) && OnePlace(free[0], free, queue, held);
    forall x: nat | x < n ensures OnePlace(x, free[1..], queue, held + {free[0]}) {
      assert OnePlace(x, free, queue, held);
    }
    forall x: nat | InUse(x, free[1..], queue, held + {free[0]}) ensures x < n {
      assert InUse(x, free, queue, held);
    }
  }

  /** Off the queue into somebody's hands. */
  lemma TakeQueued(free: seq<nat>, queue: seq<nat>, held: set<nat>, n: nat)
    requires Whole(free, queue, held, n) && queue != []
    ensures queue[0] !in held && Whole(free, queue[1..], held + {queue[0]}, n)
  {
    WholeSwap(free, queue, held, n);
    TakeFree(queue, free, held, n);
    WholeSwap(queue[1..], free, held + {queue[0]}, n);
  }

  lemma WholeSwap(free: seq<nat>, queue: seq<nat>, held: set<nat>, n: nat)
    requires Whole(free, queue, held, n)
    ensures Whole(queue, free, held, n)
  {
    forall x: nat | x < n ensures OnePlace(x, queue, free, held) { assert OnePlace(x, free, queue, held); }
    forall x: nat | InUse(x, queue, free, held) ensures x < n { assert InUse(x, free, queue, held); }
  }

  /** Out of somebody's hands onto either end of the queue, or onto the free list. */
  lemma PutBack(free: seq<nat>, queue: seq<nat>, held: set<nat>, n: nat, k: nat)
    requires Whole(free, queue, held, n) && k in held
    ensures k < n && k !in free && k !in queue
    ensures Whole(free, queue + [k], held - {k}, n)
    ensures Whole(free, [k] + queue, held - {k}, n)
    ensures Whole([k] + free, queue, held - {k}, n)
  {
    assert InUse(k, free, queue, held) && OnePlace(k, free, queue, held);
    ConsMembers(k, free);
    ConsMembers(k, queue);
    forall x: nat | x < n
      ensures OnePlace(x, free, queue + [k], held - {k}) && OnePlace(x, free, [k] + queue, held - {k})
      ensures OnePlace(x, [k] + free, queue, held - {k})
    {
      assert OnePlace(x, free, queue, held);
    }
    forall x: nat
      ensures InUse(x, free, queue + [k], held - {k}) ==> x < n
      ensures InUse(x, free, [k] + queue, held - {k}) ==> x < n
      ensures InUse(x, [k] + free, queue, held - {k}) ==> x < n
    {
      assert InUse(x, free, queue, held) ==> x < n;
    }
  }

  lemma MoveOne(free: seq<nat>, queue: seq<nat>, held: set<nat>, n: nat)
    requires Whole(free, queue, held, n) && queue != []
    ensures queue[0] < n && queue[0] !in free && queue[0] !in queue[1..] && queue[0] !in held
    ensures Whole([queue[0]] + free, queue[1..], held, n)
  {
    TakeQueued(free, queue, held, n);
    PutBack(free, queue[1..], held + {queue[0]}, n, queue[0]);
    assert held + {queue[0]} - {queue[0]} == held;
  }

  /** The free list after every slot of `queue`, first to last, was pushed on it. */
  function Pushed(free: seq<nat>, queue: seq<nat>): seq<nat>
    decreases |queue|
  {
    if queue == [] then free else Pushed([queue[0]] + free, queue[1..])
  }

  lemma {:induction false} PushedWhole(free: seq<nat>, queue: seq<nat>, held: set<nat>, n: nat)
    requires Whole(free, queue, held, n)
    ensures Whole(Pushed(free, queue), [], held, n)
    decreases |queue|
  {
    if queue != [] {
      MoveOne(free, queue, held, n);
      PushedWhole([queue[0]] + free, queue[1..], held, n);
    }
  }

  /** What is pushed is what was there and what was queued. */
  lemma {:induction false} PushedMembers(free: seq<nat>, queue: seq<nat>)
    ensures forall x :: x in Pushed(free, queue) <==> x in free || x in queue
    decreases |queue|
  {
    if queue != [] {
      assert queue == [queue[0]] + queue[1..];
      PushedMembers([queue[0]] + free, queue[1..]);
    }
  }

  function Countdown(n: nat): seq<nat>
  {
    if n == 0 then [] else [n - 1] + Countdown(n - 1)
  }

  lemma {:induction false} CountdownWhole(n: nat)
    ensures Whole(Countdown(n), [], {}, n)
    ensures forall x: nat :: x in Countdown(n) <==> x < n
  {
    if n > 0 {
      CountdownWhole(n - 1);
      ConsMembers(n - 1, Countdown(n - 1));
    }
  }

  // ----- chains of slots -----

  /** `s` is the chain of slots from `first` along `next` to NULL. */
  ghost predicate Chain(next: seq<int>, first: int, s: seq<nat>)
    decreases |s|
  {
    if s == [] then first == NULL
    else first == s[0] && s[0] < |next| && Chain(next, next[s[0]], s[1..])
  }

  /** Link by link: the first entry, each entry's successor, and NULL behind the last. */
  lemma ChainLinks(next: seq<int>, first: int, s: seq<nat>)
    ensures Chain(next, first, s) <==>
      && first == (if s == [] then -1 else s[0])
      && (forall i :: 0 <= i < |s| ==> s[i] < |next|)
      && (forall i, j :: 0 <= i && j == i + 1 < |s| ==> next[s[i]] == s[j])
      && (s != [] ==> next[s[|s| - 1]] == -1)
  {
    if Chain(next, first, s) {
      LinksOfChain(next, first, s);
      forall i | 0 <= i < |s| ensures s[i] < |next| { assert LinkAt(next, s, i); }
      forall i, j | 0 <= i && j == i + 1 < |s| ensures next[s[i]] == s[j] { assert LinkAt(next, s, i); }
      assert s != [] ==> LinkAt(next, s, |s| - 1);
    }
    if (forall i :: 0 <= i < |s| ==> LinkAt(next, s, i)) && s != [] { ChainOfLinks(next, s); }
  }

  ghost predicate LinkAt(next: seq<int>, s: seq<nat>, i: int)
    requires 0 <= i < |s|
  {
    s[i] < |next| && next[s[i]] == if i + 1 < |s| then s[i + 1] else -1
  }

  lemma {:induction false} LinksOfChain(next: seq<int>, first: int, s: seq<nat>)
    requires Chain(next, first, s)
    ensures forall i :: 0 <= i < |s| ==> LinkAt(next, s, i)
    decreases |s|
  {
    if s != [] {
      var rest := s[1..];
      LinksOfChain(next, next[s[0]], rest);
      forall i | 0 < i < |s| ensures LinkAt(next, s, i) { assert LinkAt(next, rest, i - 1); }
    }
  }

  lemma {:induction false} ChainOfLinks(next: seq<int>, s: seq<nat>)
    requires s != [] && forall i :: 0 <= i < |s| ==> LinkAt(next, s, i)
    ensures Chain(next, s[0], s)
    decreases |s|
  {
    assert LinkAt(next, s, 0);
    if |s| > 1 {
      var rest := s[1..];
      forall i | 0 <= i < |rest| ensures LinkAt(next, rest, i) { assert LinkAt(next, s, i + 1); }
      ChainOfLinks(next, rest);
    }
  }

  /** A chain does not notice changes to other slots. */
  lemma {:induction false} ChainElsewhere(next: seq<int>, first: int, s: seq<nat>, x: nat, v: int)
    requires Chain(next, first, s) && x < |next| && x !in s
    ensures Chain(next[x := v], first, s)
    decreases |s|
  {
    if s != [] {
      assert s == [s[0]] + s[1..];
      ChainElsewhere(next, next[s[0]], s[1..], x, v);
    }
  }

  lemma ChainPush(next: seq<int>, first: int, s: seq<nat>, x: nat)
    requires Chain(next, first, s) && x < |next| && x !in s
    ensures Chain(next[x := first], x, [x] + s)
  {
    ChainElsewhere(next, first, s, x, first);
    assert ([x] + s)[1..] == s;
  }

  lemma {:induction false} ChainAppend(next: seq<int>, first: int, s: seq<nat>, x: nat)
    requires Chain(next, first, s) && s != [] && NoDup(s) && x < |next| && x !in s && next[x] == NULL
    ensures s[|s| - 1] < |next| && Chain(next[s[|s| - 1] := x], first, s + [x])
    decreases |s|
  {
    var last := |s| - 1;
    if |s| == 1 {
      assert (s + [x])[1..] == [x];
      assert [x][1..] == [];
    } else {
      assert s == [s[0]] + s[1..];
      assert s[0] != s[last];
      HeadOf(s);
      ChainAppend(next, next[s[0]], s[1..], x);
      assert (s + [x])[1..] == s[1..] + [x];
      assert s[1..][last - 1] == s[last];
    }
  }

  lemma Scale(a: nat, b: nat, k: nat)
    requires a <= b
    ensures a * k <= b * k
  {
  }
}
