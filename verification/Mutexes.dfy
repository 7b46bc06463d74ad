/** Several mutexes at once.  A thread has one current_priority, but each mutex remembers in its own original_priority what
    to restore: giving one up can drop the boost that a waiter on another still calls for. */
module Mutexes {
  import opened Sequences
  import opened WaitQueue
  import Mutex

  /** The fields of one mutex. */
  datatype Lock = Lock(value: nat, owner: Option<Tid>, hold: nat, original: nat, waiters: seq<Tid>)

  datatype State = State(locks: seq<Lock>, prio: map<Tid, nat>)

  /** A call on mutex number `at`. */
  datatype Call = On(at: nat, call: Mutex.Call)

  // ----- each call is a step of its mutex -----

  function View(s: State, i: nat): Mutex.State
    requires i < |s.locks|
  {
    var l := s.locks[i]; Mutex.State(l.value, l.owner, l.hold, l.original, l.waiters, s.prio)
  }

  function With(s: State, i: nat, m: Mutex.State): State
    requires i < |s.locks|
  {
    State(s.locks[i := Lock(m.value, m.owner, m.hold, m.original, m.waiters)], m.prio)
  }

  predicate Waits(s: State, i: nat, t: Tid)
  {
    i < |s.locks| && t in s.locks[i].waiters
  }

  predicate Owns(s: State, i: nat, t: Tid)
  {
    i < |s.locks| && s.locks[i].owner == Some(t)
  }

  /** As for one mutex; and a thread that is suspended on any of them makes no call. */
  ghost predicate Allowed(s: State, c: Call)
  {
    && c.at < |s.locks| && Mutex.Allowed(View(s, c.at), c.call)
    && (!c.call.ExpireCall? ==> forall j: nat :: !Waits(s, j, c.call.thread))
  }

  ghost function Step(s: State, c: Call): (State, Mutex.Outcome)
    requires Allowed(s, c)
  {
    var (m, r) := Mutex.Step(View(s, c.at), c.call); (With(s, c.at, m), r)
  }

  ghost predicate OneLock(s: State, i: nat)
    requires i < |s.locks|
  {
    Mutex.Ownership(View(s, i)) && NoDup(s.locks[i].waiters)
  }

  /** Each mutex is consistent in itself, and nobody waits for two. */
  ghost predicate Sound(s: State)
  {
    && (forall i: nat :: i < |s.locks| ==> OneLock(s, i))
    && (forall i: nat, j: nat, t: Tid :: Waits(s, i, t) && Waits(s, j, t) ==> i == j)
  }

  /** The section of one mutex, on that mutex. */
  lemma LockKept(m: Mutex.State, c: Mutex.Call)
    requires Mutex.Ownership(m) && NoDup(m.waiters) && Mutex.Allowed(m, c)
    ensures var m' := Mutex.Step(m, c).0;
      && Mutex.Ownership(m') && NoDup(m'.waiters)
      && forall t :: t in m'.waiters ==> t in m.waiters || (t == c.thread && !c.ExpireCall?)
  {
    match c
    case TakeCall(t, time) =>
      var m' := Mutex.Step(m, c).0;
      SuspendMembers(m.waiters, t, m'.prio, ByPriority);
    case ReleaseCall(t) => if m.waiters != [] { HeadOf(m.waiters); }
    case ExpireCall(t) => WithoutMembers(m.waiters, t);
  }

  lemma StepSound(s: State, c: Call)
    requires Sound(s) && Allowed(s, c)
    ensures Sound(Step(s, c).0)
  {
    var s' := Step(s, c).0;
    assert OneLock(s, c.at);
    LockKept(View(s, c.at), c.call);
    forall i: nat | i < |s'.locks| ensures OneLock(s', i) { assert OneLock(s, i); }
    forall i: nat, j: nat, t: Tid | Waits(s', i, t) && Waits(s', j, t) ensures i == j {
      assert i != c.at ==> Waits(s, i, t);
      assert j != c.at ==> Waits(s, j, t);
      assert Waits(s, c.at, t) || (!c.call.ExpireCall? && t == c.call.thread) || (i != c.at && j != c.at);
    }
  }

  // ----- exactly when inheritance survives a call -----

  /** The owner is at least as urgent as waiter `w`. */
  predicate UrgentAt(s: State, i: nat, w: Tid)
    requires i < |s.locks|
  {
    s.locks[i].owner.Some? && PrioOf(s.prio, s.locks[i].owner.value) <= PrioOf(s.prio, w)
  }

  /** Every owner is at least as urgent as everyone who waits for it. */
  ghost predicate Urgent(s: State)
  {
    forall i: nat, w: Tid :: Waits(s, i, w) ==> UrgentAt(s, i, w)
  }

  /** A blocked take raises its owner, and nobody raises the owner that this one in turn waits for. */
  ghost predicate ChainUrgent(s: State, o: Tid, t: Tid)
  {
    forall j: nat :: Waits(s, j, o) ==> s.locks[j].owner.Some? && PrioOf(s.prio, s.locks[j].owner.value) <= PrioOf(s.prio, t)
  }

  /** What the release of mutex `i` restores is urgent enough for the waiters of the thread's other mutexes. */
  ghost predicate RestoresEnough(s: State, i: nat, t: Tid)
    requires i < |s.locks|
  {
    forall j: nat, w: Tid :: j != i && Owns(s, j, t) && Waits(s, j, w) ==> s.locks[i].original <= PrioOf(s.prio, w)
  }

  /** The first waiter is still the most urgent one: nobody behind it was raised while waiting. */
  predicate FirstIsMostUrgent(q: seq<Tid>, prio: map<Tid, nat>)
  {
    q != [] ==> forall w :: w in q[1..] ==> PrioOf(prio, q[0]) <= PrioOf(prio, w)
  }

  /** The condition, looked at before the call. */
  ghost predicate Keeps(s: State, c: Call)
    requires Allowed(s, c)
  {
    match c.call
    case TakeCall(t, time) =>
      Step(s, c).1 == Mutex.Suspended ==> s.locks[c.at].owner.Some? && ChainUrgent(s, s.locks[c.at].owner.value, t)
    case ReleaseCall(t) =>
      Owns(s, c.at, t) && s.locks[c.at].hold == 1 ==>
        RestoresEnough(s, c.at, t) && FirstIsMostUrgent(s.locks[c.at].waiters, s.prio)
    case ExpireCall(t) => true
  }

  lemma BlockedTake(s: State, c: Call)
    requires Sound(s) && Urgent(s) && Allowed(s, c) && c.call.TakeCall? && Step(s, c).1 == Mutex.Suspended
    ensures Urgent(Step(s, c).0) <==> Keeps(s, c)
  {
    var i, t, s' := c.at, c.call.thread, Step(s, c).0;
    assert OneLock(s, i);
    var o := s.locks[i].owner.value;
    SuspendMembers(s.locks[i].waiters, t, s'.prio, ByPriority);
    if Keeps(s, c) {
      forall j: nat, w: Tid | Waits(s', j, w) ensures UrgentAt(s', j, w) {
        if j != i || w != t { assert Waits(s, j, w) && UrgentAt(s, j, w); }
        assert OneLock(s, j);
        if w == o { assert Waits(s, j, o); }
      }
    }
    if Urgent(s') {
      forall j: nat | Waits(s, j, o)
        ensures s.locks[j].owner.Some? && PrioOf(s.prio, s.locks[j].owner.value) <= PrioOf(s.prio, t)
      {
        assert OneLock(s, j) && UrgentAt(s, j, o);
        assert j != i && Waits(s', j, o) && UrgentAt(s', j, o);
      }
    }
  }

  lemma FullReleaseStep(s: State, c: Call)
    requires Sound(s) && Urgent(s) && Allowed(s, c) && c.call.ReleaseCall?
    requires Owns(s, c.at, c.call.thread) && s.locks[c.at].hold == 1
    ensures Urgent(Step(s, c).0) <==> Keeps(s, c)
  {
    var i, t, s' := c.at, c.call.thread, Step(s, c).0;
    var q := s.locks[i].waiters;
    assert OneLock(s, i);
    assert s'.prio == Mutex.Restored(View(s, i));
    forall x: Tid ensures PrioOf(s'.prio, x) == if x == t then s.locks[i].original else PrioOf(s.prio, x) { }
    assert forall w: Tid :: Waits(s', i, w) <==> q != [] && w in q[1..];
    if Keeps(s, c) {
      forall j: nat, w: Tid | Waits(s', j, w) ensures UrgentAt(s', j, w) {
        if j == i {
          assert w in q;
          assert Waits(s, i, w) && Waits(s, i, q[0]);
        } else {
          assert Waits(s, j, w) && UrgentAt(s, j, w);
        }
      }
    }
    if Urgent(s') {
      forall j: nat, w: Tid | j != i && Owns(s, j, t) && Waits(s, j, w) ensures s.locks[i].original <= PrioOf(s.prio, w) {
        assert Waits(s', j, w) && UrgentAt(s', j, w);
      }
      if q != [] {
        forall w | w in q[1..] ensures PrioOf(s.prio, q[0]) <= PrioOf(s.prio, w) {
          assert w in q;
          assert Waits(s, i, w) && Waits(s, i, q[0]);
          assert Waits(s', i, w) && UrgentAt(s', i, w);
        }
      }
    }
  }

  lemma OtherCalls(s: State, c: Call)
    requires Sound(s) && Urgent(s) && Allowed(s, c)
    requires c.call.TakeCall? ==> Step(s, c).1 != Mutex.Suspended
    requires c.call.ReleaseCall? ==> !(Owns(s, c.at, c.call.thread) && s.locks[c.at].hold == 1)
    ensures Keeps(s, c) && Urgent(Step(s, c).0)
  {
    var i, s' := c.at, Step(s, c).0;
    assert OneLock(s, i);
    if c.call.ExpireCall? { WithoutMembers(s.locks[i].waiters, c.call.thread); }
    forall j: nat, w: Tid | Waits(s', j, w) ensures UrgentAt(s', j, w) {
      assert Waits(s, j, w) && UrgentAt(s, j, w);
    }
  }

  /** The exact condition, call by call. */
  lemma StaysUrgentIff(s: State, c: Call)
    requires Sound(s) && Urgent(s) && Allowed(s, c)
    ensures Urgent(Step(s, c).0) <==> Keeps(s, c)
  {
    if c.call.TakeCall? && Step(s, c).1 == Mutex.Suspended { BlockedTake(s, c); }
    else if c.call.ReleaseCall? && Owns(s, c.at, c.call.thread) && s.locks[c.at].hold == 1 { FullReleaseStep(s, c); }
    else { OtherCalls(s, c); }
  }

  // ----- whole runs -----

  ghost predicate IsRun(s: State, calls: seq<Call>)
    decreases |calls|
  {
    calls != [] ==> Allowed(s, calls[0]) && IsRun(Step(s, calls[0]).0, calls[1..])
  }

  ghost function After(s: State, calls: seq<Call>): State
    requires IsRun(s, calls)
    decreases |calls|
  {
    if calls == [] then s else After(Step(s, calls[0]).0, calls[1..])
  }

  ghost predicate UrgentThroughout(s: State, calls: seq<Call>)
    requires IsRun(s, calls)
    decreases |calls|
  {
    Urgent(s) && (calls != [] ==> UrgentThroughout(Step(s, calls[0]).0, calls[1..]))
  }

  ghost predicate EachKeeps(s: State, calls: seq<Call>)
    requires IsRun(s, calls)
    decreases |calls|
  {
    calls != [] ==> Keeps(s, calls[0]) && EachKeeps(Step(s, calls[0]).0, calls[1..])
  }

  /** Over a whole run no owner ever falls behind a waiter exactly when each call meets the condition. */
  lemma {:induction false} UrgentThroughoutIff(s: State, calls: seq<Call>)
    requires Sound(s) && Urgent(s) && IsRun(s, calls)
    ensures UrgentThroughout(s, calls) <==> EachKeeps(s, calls)
    decreases |calls|
  {
    if calls != [] {
      var s' := Step(s, calls[0]).0;
      StepSound(s, calls[0]);
      StaysUrgentIff(s, calls[0]);
      if Urgent(s') { UrgentThroughoutIff(s', calls[1..]); }
    }
  }

  const FREE := Lock(1, None, 0, 0xff, [])

  function AllFree(n: nat): seq<Lock>
  {
    if n == 0 then [] else AllFree(n - 1) + [FREE]
  }

  lemma {:induction false} AllFreeFacts(n: nat)
    ensures |AllFree(n)| == n && forall i :: 0 <= i < n ==> AllFree(n)[i] == FREE
  {
    if n > 0 { AllFreeFacts(n - 1); }
  }

  /** After rt_mutex_init of each. */
  function Initial(n: nat, prio: map<Tid, nat>): State
  {
    State(AllFree(n), prio)
  }

  lemma InitialSound(n: nat, prio: map<Tid, nat>)
    ensures Sound(Initial(n, prio)) && Urgent(Initial(n, prio))
  {
    AllFreeFacts(n);
    forall i: nat | i < n ensures OneLock(Initial(n, prio), i) { }
  }

  /** The hypotheses of UrgentThroughoutIff hold of mutexes that nobody has taken yet. */
  lemma UrgentFromInitIff(n: nat, prio: map<Tid, nat>, calls: seq<Call>)
    requires IsRun(Initial(n, prio), calls)
    ensures UrgentThroughout(Initial(n, prio), calls) <==> EachKeeps(Initial(n, prio), calls)
  {
    InitialSound(n, prio);
    UrgentThroughoutIff(Initial(n, prio), calls);
  }

  // ----- a boost that is lost -----

  const OWN := map[1 := 20, 2 := 10]
  const RAISED := map[1 := 10, 2 := 10]
  const TAKEN := Lock(0, Some(1), 1, 20, [])
  const WANTED := Lock(0, Some(1), 1, 20, [2])

  /** Thread 1 (priority 20) takes both mutexes, thread 2 (priority 10) blocks on the first, and thread 1 releases the
      second. */
  const LOSING := [On(0, Mutex.TakeCall(1, -1)), On(1, Mutex.TakeCall(1, -1)), On(0, Mutex.TakeCall(2, -1)),
                   On(1, Mutex.ReleaseCall(1))]

  ghost predicate Leads(s: State, c: Call, s': State)
  {
    Allowed(s, c) && Step(s, c).0 == s'
  }

  lemma LosingSteps()
    ensures Leads(State([FREE, FREE], OWN), LOSING[0], State([TAKEN, FREE], OWN))
    ensures Leads(State([TAKEN, FREE], OWN), LOSING[1], State([TAKEN, TAKEN], OWN))
    ensures Leads(State([TAKEN, TAKEN], OWN), LOSING[2], State([WANTED, TAKEN], RAISED))
  {
  }

  lemma LosingStep()
    ensures Leads(State([WANTED, TAKEN], RAISED), LOSING[3], State([WANTED, FREE], OWN))
  {
    assert RAISED[1 := 20] == OWN;
  }

  lemma OneCall(s: State, c: Call, s': State, rest: seq<Call>)
    requires Leads(s, c, s') && IsRun(s', rest)
    ensures IsRun(s, [c] + rest) && After(s, [c] + rest) == After(s', rest)
  {
    assert ([c] + rest)[1..] == rest;
  }

  /** What the release restores is 20, and thread 2 goes on waiting for a thread that is less urgent. */
  lemma BoostIsLost()
    ensures IsRun(Initial(2, OWN), LOSING) && !Urgent(After(Initial(2, OWN), LOSING))
  {
    AllFreeFacts(2);
    assert Initial(2, OWN) == State([FREE, FREE], OWN);
    LosingSteps();
    LosingStep();
    var last := State([WANTED, FREE], OWN);
    assert Waits(last, 0, 2) && !UrgentAt(last, 0, 2);
    hide Leads;
    OneCall(State([WANTED, TAKEN], RAISED), LOSING[3], last, []);
    OneCall(State([TAKEN, TAKEN], OWN), LOSING[2], State([WANTED, TAKEN], RAISED), [LOSING[3]] + []);
    OneCall(State([TAKEN, FREE], OWN), LOSING[1], State([TAKEN, TAKEN], OWN), [LOSING[2]] + ([LOSING[3]] + []));
    OneCall(State([FREE, FREE], OWN), LOSING[0], State([TAKEN, FREE], OWN),
            [LOSING[1]] + ([LOSING[2]] + ([LOSING[3]] + [])));
    assert LOSING == [LOSING[0]] + ([LOSING[1]] + ([LOSING[2]] + ([LOSING[3]] + [])));
  }

  // ----- without nesting, each mutex is on its own -----

  /** The mutex as if there were no other: everyone but its owner at the priority of its own. */
  function Alone(s: State, base: map<Tid, nat>, i: nat): Mutex.State
    requires i < |s.locks|
  {
    var l := s.locks[i];
    Mutex.State(l.value, l.owner, l.hold, l.original, l.waiters,
                if l.owner.Some? then base[l.owner.value := PrioOf(s.prio, l.owner.value)] else base)
  }

  /** A thread that asks for a mutex owns no other. */
  ghost predicate Unnested(s: State, c: Call)
  {
    c.call.TakeCall? ==> forall j: nat :: j != c.at ==> !Owns(s, j, c.call.thread)
  }

  ghost predicate LockSafe(s: State, base: map<Tid, nat>, arrivals: seq<seq<Tid>>, i: nat)
    requires i < |s.locks| == |arrivals|
  {
    Mutex.Safe(Alone(s, base, i), base, arrivals[i])
  }

  /** Everyone is raised by at most one mutex, and nobody by another than the one it owns. */
  ghost predicate Apart(s: State, base: map<Tid, nat>, arrivals: seq<seq<Tid>>)
  {
    && s.prio.Keys == base.Keys && |arrivals| == |s.locks|
    && (forall i: nat :: i < |s.locks| ==> LockSafe(s, base, arrivals, i))
    && (forall i: nat, j: nat, t: Tid :: Owns(s, i, t) && Owns(s, j, t) ==> i == j)
    && (forall i: nat, j: nat, t: Tid :: Waits(s, i, t) ==> !Owns(s, j, t))
    && (forall i: nat, j: nat, t: Tid :: Waits(s, i, t) && Waits(s, j, t) ==> i == j)
    && (forall t: Tid :: t in base && (forall j: nat :: !Owns(s, j, t)) ==> s.prio[t] == base[t])
  }

  /** A thread that owns nothing runs at its own priority. */
  lemma OwnPriority(s: State, base: map<Tid, nat>, arrivals: seq<seq<Tid>>, t: Tid)
    requires Apart(s, base, arrivals) && forall j: nat :: !Owns(s, j, t)
    ensures PrioOf(s.prio, t) == PrioOf(base, t)
  {
  }

  lemma WaiterPriority(s: State, base: map<Tid, nat>, arrivals: seq<seq<Tid>>, i: nat, t: Tid)
    requires Apart(s, base, arrivals) && Waits(s, i, t)
    ensures PrioOf(s.prio, t) == PrioOf(base, t)
  {
    OwnPriority(s, base, arrivals, t);
  }

  /** Nobody falls behind. */
  lemma ApartIsUrgent(s: State, base: map<Tid, nat>, arrivals: seq<seq<Tid>>)
    requires Apart(s, base, arrivals)
    ensures Urgent(s)
  {
    forall i: nat, w: Tid | Waits(s, i, w) ensures UrgentAt(s, i, w) {
      assert LockSafe(s, base, arrivals, i);
      WaiterPriority(s, base, arrivals, i, w);
    }
  }

  /** A take makes the same step whether or not there are other mutexes. */
  lemma TakeAlone(s: State, base: map<Tid, nat>, arrivals: seq<seq<Tid>>, c: Call)
    requires Apart(s, base, arrivals) && c.call.TakeCall? && Allowed(s, c) && Unnested(s, c)
    ensures var m, s' := Alone(s, base, c.at), Step(s, c).0;
      && Mutex.Allowed(m, c.call) && Mutex.Step(m, c.call) == (Alone(s', base, c.at), Step(s, c).1)
      && s'.prio.Keys == base.Keys
      && forall x: Tid :: !Owns(s, c.at, x) ==> PrioOf(s'.prio, x) == PrioOf(s.prio, x)
  {
    var i, t, m, s' := c.at, c.call.thread, Alone(s, base, c.at), Step(s, c).0;
    var l := s.locks[i];
    assert LockSafe(s, base, arrivals, i);
    if l.owner != Some(t) {
      OwnPriority(s, base, arrivals, t);
      if l.value == 0 && c.call.time != 0 {
        forall x | x in l.waiters ensures PrioOf(s'.prio, x) == PrioOf(base, x) {
          assert Waits(s, i, x);
          WaiterPriority(s, base, arrivals, i, x);
        }
        var o := l.owner.value;
        var p := Mutex.Inherit(m, t);
        assert p == base[o := PrioOf(s'.prio, o)];
        forall x | x in l.waiters ensures PrioOf(p, x) == PrioOf(base, x) { assert Waits(s, i, x); }
        Mutex.InsertPrioEqual(l.waiters, t, s'.prio, base);
        Mutex.InsertPrioEqual(l.waiters, t, p, base);
      } else if l.value > 0 {
        assert base[t := PrioOf(s.prio, t)] == base;
      }
    }
  }

  lemma ReleaseAlone(s: State, base: map<Tid, nat>, arrivals: seq<seq<Tid>>, c: Call)
    requires Apart(s, base, arrivals) && c.call.ReleaseCall? && Allowed(s, c)
    ensures var m, s' := Alone(s, base, c.at), Step(s, c).0;
      && Mutex.Allowed(m, c.call) && Mutex.Step(m, c.call) == (Alone(s', base, c.at), Step(s, c).1)
      && s'.prio.Keys == base.Keys
      && forall x: Tid :: !Owns(s, c.at, x) ==> PrioOf(s'.prio, x) == PrioOf(s.prio, x)
  {
    var i, t, m, s' := c.at, c.call.thread, Alone(s, base, c.at), Step(s, c).0;
    var l := s.locks[i];
    assert LockSafe(s, base, arrivals, i);
    if l.owner == Some(t) && l.hold == 1 {
      assert Mutex.Restored(m) == base;
      if l.waiters != [] {
        var h := l.waiters[0];
        assert Waits(s, i, h);
        WaiterPriority(s, base, arrivals, i, h);
        assert !Owns(s, i, h);
        assert base[h := PrioOf(s'.prio, h)] == base by { WaiterKnown(s, base, arrivals, i, h); }
      }
    }
  }

  lemma WaiterKnown(s: State, base: map<Tid, nat>, arrivals: seq<seq<Tid>>, i: nat, t: Tid)
    requires Apart(s, base, arrivals) && Waits(s, i, t)
    ensures t in base
  {
    assert LockSafe(s, base, arrivals, i);
  }

  lemma ExpireAlone(s: State, base: map<Tid, nat>, arrivals: seq<seq<Tid>>, c: Call)
    requires Apart(s, base, arrivals) && c.call.ExpireCall? && Allowed(s, c)
    ensures var m, s' := Alone(s, base, c.at), Step(s, c).0;
      && Mutex.Allowed(m, c.call) && Mutex.Step(m, c.call) == (Alone(s', base, c.at), Step(s, c).1)
      && s'.prio == s.prio
  {
  }

  lemma CallAlone(s: State, base: map<Tid, nat>, arrivals: seq<seq<Tid>>, c: Call)
    requires Apart(s, base, arrivals) && Allowed(s, c) && Unnested(s, c)
    ensures var m, s' := Alone(s, base, c.at), Step(s, c).0;
      && Mutex.Allowed(m, c.call) && Mutex.Step(m, c.call) == (Alone(s', base, c.at), Step(s, c).1)
      && s'.prio.Keys == base.Keys
      && forall x: Tid :: !Owns(s, c.at, x) ==> PrioOf(s'.prio, x) == PrioOf(s.prio, x)
  {
    match c.call
    case TakeCall(_, _) => TakeAlone(s, base, arrivals, c);
    case ReleaseCall(_) => ReleaseAlone(s, base, arrivals, c);
    case ExpireCall(_) => ExpireAlone(s, base, arrivals, c);
  }

  /** The other mutexes notice nothing. */
  lemma OthersAlone(s: State, base: map<Tid, nat>, arrivals: seq<seq<Tid>>, c: Call, j: nat)
    requires Apart(s, base, arrivals) && Allowed(s, c) && Unnested(s, c) && j < |s.locks| && j != c.at
    ensures Alone(Step(s, c).0, base, j) == Alone(s, base, j)
  {
    CallAlone(s, base, arrivals, c);
    var o := s.locks[j].owner;
    if o.Some? { assert Owns(s, j, o.value); }
  }

  ghost function ArrivalsAfterCall(s: State, base: map<Tid, nat>, arrivals: seq<seq<Tid>>, c: Call): seq<seq<Tid>>
    requires Apart(s, base, arrivals) && Allowed(s, c) && Unnested(s, c)
  {
    CallAlone(s, base, arrivals, c);
    arrivals[c.at := Mutex.Arrivals(Alone(s, base, c.at), arrivals[c.at], c.call)]
  }

  /** How owners and waiters change. */
  lemma WhoMoves(s: State, base: map<Tid, nat>, arrivals: seq<seq<Tid>>, c: Call)
    requires Apart(s, base, arrivals) && Allowed(s, c) && Unnested(s, c)
    ensures var i, s' := c.at, Step(s, c).0;
      && (forall t: Tid :: Owns(s', i, t) ==> Owns(s, i, t) || Waits(s, i, t) || (c.call.TakeCall? && t == c.call.thread))
      && (forall t: Tid :: Waits(s', i, t) ==>
            !Owns(s', i, t) && (Waits(s, i, t) || (c.call.TakeCall? && t == c.call.thread && !Owns(s, i, t))))
      && (forall t: Tid :: Owns(s, i, t) && !Owns(s', i, t) ==> t in base && s'.prio[t] == base[t])
  {
    var i := c.at;
    assert LockSafe(s, base, arrivals, i);
    ServeOrderFacts(arrivals[i], base);
    LockMoves(View(s, i), base, c.call);
    forall t: Tid | Waits(s, i, t) ensures !Owns(s, i, t) { }
  }

  /** The same for the one mutex that is called. */
  lemma LockMoves(m: Mutex.State, base: map<Tid, nat>, c: Mutex.Call)
    requires Mutex.Allowed(m, c) && Mutex.Ownership(m) && NoDup(m.waiters) && m.prio.Keys == base.Keys
    requires m.owner.Some? ==> m.owner.value in base && m.original == base[m.owner.value]
    ensures var m' := Mutex.Step(m, c).0;
      && (forall t: Tid :: m'.owner == Some(t) ==>
            m.owner == Some(t) || t in m.waiters || (c.TakeCall? && t == c.thread))
      && (forall t: Tid :: t in m'.waiters ==>
            m'.owner != Some(t) && (t in m.waiters || (c.TakeCall? && t == c.thread && m.owner != Some(t))))
      && (forall t: Tid :: m.owner == Some(t) && m'.owner != Some(t) ==> t in base && m'.prio[t] == base[t])
  {
    match c
    case TakeCall(t, time) => SuspendMembers(m.waiters, t, Mutex.Step(m, c).0.prio, ByPriority);
    case ReleaseCall(t) => if m.waiters != [] { HeadOf(m.waiters); }
    case ExpireCall(t) => WithoutMembers(m.waiters, t);
  }

  lemma StepApart(s: State, base: map<Tid, nat>, arrivals: seq<seq<Tid>>, c: Call)
    requires Apart(s, base, arrivals) && Allowed(s, c) && Unnested(s, c)
    ensures Apart(Step(s, c).0, base, ArrivalsAfterCall(s, base, arrivals, c))
  {
    var i, s', a' := c.at, Step(s, c).0, ArrivalsAfterCall(s, base, arrivals, c);
    CallAlone(s, base, arrivals, c);
    WhoMoves(s, base, arrivals, c);
    assert LockSafe(s, base, arrivals, i);
    Mutex.StepSafe(Alone(s, base, i), base, arrivals[i], c.call);
    forall j: nat | j < |s'.locks| ensures LockSafe(s', base, a', j) {
      if j != i {
        OthersAlone(s, base, arrivals, c, j);
        assert LockSafe(s, base, arrivals, j);
      }
    }
    OwnersApart(s, base, arrivals, c);
    forall t: Tid | t in base && forall j: nat :: !Owns(s', j, t) ensures s'.prio[t] == base[t] {
      if !Owns(s, i, t) {
        forall j: nat ensures !Owns(s, j, t) { assert j != i ==> !Owns(s', j, t); }
      }
    }
  }

  lemma OwnersApart(s: State, base: map<Tid, nat>, arrivals: seq<seq<Tid>>, c: Call)
    requires Apart(s, base, arrivals) && Allowed(s, c) && Unnested(s, c)
    ensures var s' := Step(s, c).0;
      && (forall j: nat, k: nat, t: Tid :: Owns(s', j, t) && Owns(s', k, t) ==> j == k)
      && (forall j: nat, k: nat, t: Tid :: Waits(s', j, t) ==> !Owns(s', k, t))
      && (forall j: nat, k: nat, t: Tid :: Waits(s', j, t) && Waits(s', k, t) ==> j == k)
  {
    var i, s' := c.at, Step(s, c).0;
    WhoMoves(s, base, arrivals, c);
    assert forall j: nat, t: Tid :: j != i ==> (Owns(s', j, t) <==> Owns(s, j, t)) && (Waits(s', j, t) <==> Waits(s, j, t));
  }

  ghost predicate UnnestedRun(s: State, calls: seq<Call>)
    requires IsRun(s, calls)
    decreases |calls|
  {
    calls != [] ==> Unnested(s, calls[0]) && UnnestedRun(Step(s, calls[0]).0, calls[1..])
  }

  /** The calls on mutex `i`. */
  function Projection(calls: seq<Call>, i: nat): seq<Mutex.Call>
  {
    if calls == [] then []
    else (if calls[0].at == i then [calls[0].call] else []) + Projection(calls[1..], i)
  }

  /** As long as nobody asks for a mutex while owning another, each mutex goes through its own calls as if there were no
      other; and no owner falls behind a waiter. */
  lemma {:induction false} RunAlone(s: State, base: map<Tid, nat>, arrivals: seq<seq<Tid>>, calls: seq<Call>, i: nat)
    requires Apart(s, base, arrivals) && IsRun(s, calls) && UnnestedRun(s, calls) && i < |s.locks|
    ensures i < |After(s, calls).locks| && Mutex.IsRun(Alone(s, base, i), Projection(calls, i))
    ensures Alone(After(s, calls), base, i) == Mutex.After(Alone(s, base, i), Projection(calls, i))
    ensures Urgent(After(s, calls))
    decreases |calls|
  {
    ApartIsUrgent(s, base, arrivals);
    if calls != [] {
      var c, s' := calls[0], Step(s, calls[0]).0;
      CallAlone(s, base, arrivals, c);
      StepApart(s, base, arrivals, c);
      RunAlone(s', base, ArrivalsAfterCall(s, base, arrivals, c), calls[1..], i);
      if c.at == i {
        var rest := Projection(calls[1..], i);
        assert Projection(calls, i) == [c.call] + rest && Projection(calls, i)[1..] == rest;
      } else {
        OthersAlone(s, base, arrivals, c, i);
        assert Projection(calls, i) == Projection(calls[1..], i);
      }
    }
  }

  function NoArrivals(n: nat): seq<seq<Tid>>
  {
    seq(n, _ => [])
  }

  lemma InitialApart(n: nat, base: map<Tid, nat>)
    ensures Apart(Initial(n, base), base, NoArrivals(n))
    ensures forall i: nat :: i < n ==> Alone(Initial(n, base), base, i) == Mutex.Initial(base)
  {
    AllFreeFacts(n);
    var s := Initial(n, base);
    forall i: nat | i < n ensures LockSafe(s, base, NoArrivals(n), i) && Alone(s, base, i) == Mutex.Initial(base) {
      assert s.locks[i] == FREE;
    }
  }

  /** From initialisation on: without nesting, everything proved of one mutex holds of each. */
  lemma WithoutNestingOnTheirOwn(n: nat, base: map<Tid, nat>, calls: seq<Call>, i: nat)
    requires IsRun(Initial(n, base), calls) && UnnestedRun(Initial(n, base), calls) && i < n
    ensures i < |After(Initial(n, base), calls).locks|
    ensures Mutex.IsRun(Mutex.Initial(base), Projection(calls, i))
    ensures Alone(After(Initial(n, base), calls), base, i) == Mutex.After(Mutex.Initial(base), Projection(calls, i))
    ensures Urgent(After(Initial(n, base), calls))
  {
    AllFreeFacts(n);
    InitialApart(n, base);
    RunAlone(Initial(n, base), base, NoArrivals(n), calls, i);
  }
}
