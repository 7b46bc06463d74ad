/** The recursive mutex of ipc.c: hand-off to the most urgent waiter, and priority inheritance.

    Each section that runs with interrupts disabled is one step.  A thread whose rt_mutex_take suspends is
    out of the running until a release hands it the mutex or its timer expires. */
module Mutex {
  import opened Sequences
  import opened WaitQueue

  const HOLD_MAX := 0xff       // RT_MUTEX_HOLD_MAX
  const VALUE_MAX := 0xffff    // RT_MUTEX_VALUE_MAX

  // RT_EOK, -RT_EFULL, -RT_ETIMEOUT, -RT_ERROR; Suspended means the call has not returned yet
  datatype Outcome = Ok | Full | Timeout | Error | Suspended

  datatype State = State(value: nat, owner: Option<Tid>, hold: nat, original: nat,
                         waiters: seq<Tid>, prio: map<Tid, nat>)

  // ----- the mutex as the source keeps it -----

  class RtMutex {
    var value: nat
    var owner: Option<Tid>
    var hold: nat
    var originalPriority: nat
    var waiters: seq<Tid>         // parent.suspend_thread
    var prio: map<Tid, nat>       // current_priority of every thread

    ghost const base: map<Tid, nat>    // the priority that every thread has of its own accord
    ghost var arrivals: seq<Tid>       // the waiters in order of arrival

    ghost function Now(): State
      reads this
    {
      State(value, owner, hold, originalPriority, waiters, prio)
    }

    /** Ownership, serving order and inheritance are as Safe says. */
    ghost predicate Valid()
      reads this
    {
      Safe(Now(), base, arrivals)
    }

    /** rt_mutex_init. */
    constructor (prio: map<Tid, nat>)
      ensures Valid() && Now() == Initial(prio) && base == prio && arrivals == []
    {
      value, owner, hold, originalPriority := 1, None, 0, 0xff;
      waiters, this.prio := [], prio;
      base, arrivals := prio, [];
    }

    /** rt_mutex_take, up to its return or suspension. */
    method Take(thread: Tid, time: int) returns (r: Outcome)
      requires Valid() && thread !in waiters && thread in base
      modifies this
      ensures Valid() && Allowed(old(Now()), TakeCall(thread, time))
      ensures (Now(), r) == Step(old(Now()), TakeCall(thread, time))
      ensures arrivals == if r == Suspended then old(arrivals) + [thread] else old(arrivals)
      // its own: one level deeper, up to 255
      ensures old(owner) == Some(thread) ==> r == (if old(hold) < 255 then Ok else Full)
      ensures old(owner) == Some(thread) ==>
        && hold == (if old(hold) < 255 then old(hold) + 1 else 255)
        && owner == old(owner) && value == 0 && waiters == old(waiters) && prio == old(prio)
      // free: taken, whatever the timeout
      ensures old(value) > 0 ==>
        && r == Ok && value == 0 && owner == Some(thread) && hold == 1 && originalPriority == base[thread]
        && waiters == [] && prio == old(prio)
      // somebody else's: refused, or queued behind those at least as urgent, with the owner raised if need be
      ensures old(value) == 0 && old(owner) != Some(thread) ==>
        r == (if time == 0 then Timeout else Suspended) && value == 0 && hold == old(hold) && owner == old(owner)
      ensures r == Timeout ==> waiters == old(waiters) && prio == old(prio)
      ensures r == Suspended ==>
        exists k :: 0 <= k <= |old(waiters)|
          && waiters == old(waiters)[..k] + [thread] + old(waiters)[k..]
          && (forall i :: 0 <= i < k ==> old(waiters)[i] in base && base[old(waiters)[i]] <= base[thread])
          && (forall i :: k <= i < |old(waiters)| ==> old(waiters)[i] in base && base[thread] < base[old(waiters)[i]])
      ensures r == Suspended ==>
        && owner.Some? && owner.value in base && prio.Keys == old(prio).Keys == base.Keys
        && (forall t :: t in base && t != owner.value ==> prio[t] == old(prio)[t])
        && prio[owner.value] ==
           if base[thread] < old(prio)[owner.value] then base[thread] else old(prio)[owner.value]
    {
      ghost var c := TakeCall(thread, time);
      hide Insert, Queued, Suspend;
      if owner != Some(thread) && value == 0 && time != 0 {
        ghost var k := JoinsBetween(Now(), base, arrivals, thread, time);
      }
      RunningThreadMayCall(Now(), base, arrivals, thread, time);
      StepSafe(Now(), base, arrivals, c);
      OverflowOnlyWhenNested(Now(), base, arrivals, c);
      arrivals := Arrivals(Now(), arrivals, c);
      r := TakeSection(thread, time);
    }

    /** rt_mutex_release. */
    method Release(thread: Tid) returns (r: Outcome)
      requires Valid() && thread !in waiters && thread in base
      modifies this
      ensures Valid() && Allowed(old(Now()), ReleaseCall(thread))
      ensures (Now(), r) == Step(old(Now()), ReleaseCall(thread)) && r != Full
      ensures arrivals == Arrivals(old(Now()), old(arrivals), ReleaseCall(thread))
      ensures old(owner) == Some(thread) && old(hold) == 1 ==>
        && prio[thread] == base[thread]
        && owner == if old(arrivals) == [] then None else Some(ServeOrder(old(arrivals), base)[0])
      // not its own: refused.  Nested: one level up.
      ensures old(owner) != Some(thread) ==>
        && r == Error && value == old(value) && owner == old(owner) && hold == old(hold)
        && originalPriority == old(originalPriority) && waiters == old(waiters) && prio == old(prio)
      ensures old(owner) == Some(thread) && old(hold) > 1 ==>
        && r == Ok && hold == old(hold) - 1 && owner == old(owner) && value == 0 && waiters == old(waiters)
        && originalPriority == old(originalPriority) && prio == old(prio)
      // the last level: back to its own priority, and on to the most urgent waiter, or free
      ensures old(owner) == Some(thread) && old(hold) == 1 ==>
        r == Ok && prio.Keys == base.Keys && forall t :: t in base ==> prio[t] == base[t]
      ensures old(owner) == Some(thread) && old(hold) == 1 && old(waiters) == [] ==>
        value == 1 && owner == None && hold == 0 && waiters == []
      ensures old(owner) == Some(thread) && old(hold) == 1 && old(waiters) != [] ==>
        && value == 0 && owner == Some(old(waiters)[0]) && hold == 1 && waiters == old(waiters)[1..]
        && old(waiters)[0] in base && originalPriority == base[old(waiters)[0]]
        && forall i :: 0 <= i < |old(waiters)| ==>
             old(waiters)[i] in base && base[old(waiters)[0]] <= base[old(waiters)[i]]
    {
      ghost var c := ReleaseCall(thread);
      RunningThreadMayCall(Now(), base, arrivals, thread, 0);
      StepSafe(Now(), base, arrivals, c);
      OverflowOnlyWhenNested(Now(), base, arrivals, c);
      HeadMostUrgent(Now(), base, arrivals);
      if owner == Some(thread) && hold == 1 { FullRelease(Now(), base, arrivals, thread); }
      arrivals := Arrivals(Now(), arrivals, c);
      r := ReleaseSection(thread);
    }

    /** A waiter's timer expires: it leaves the list and its rt_mutex_take returns -RT_ETIMEOUT. */
    method Expire(thread: Tid)
      requires Valid() && thread in waiters
      modifies this`waiters, this`arrivals
      ensures Valid() && Now() == Step(old(Now()), ExpireCall(thread)).0 && arrivals == Without(old(arrivals), thread)
      ensures
        exists k :: 0 <= k < |old(waiters)| && old(waiters)[k] == thread
          && waiters == old(waiters)[..k] + old(waiters)[k + 1..]
    {
      ghost var k := WithoutSplices(waiters, thread);
      StepSafe(Now(), base, arrivals, ExpireCall(thread));
      waiters, arrivals := Without(waiters, thread), Without(arrivals, thread);
    }

    /** rt_thread_control(owner, RT_THREAD_CTRL_CHANGE_PRIORITY, p). */
    method ChangePriority(t: Tid, p: nat)
      modifies this`prio
      ensures prio == old(prio)[t := p]
    {
      prio := prio[t := p];
    }

    /** The section of rt_mutex_take. */
    method TakeSection(thread: Tid, time: int) returns (r: Outcome)
      requires Allowed(Now(), TakeCall(thread, time))
      modifies this`value, this`owner, this`hold, this`originalPriority, this`waiters, this`prio
      ensures (Now(), r) == Step(old(Now()), TakeCall(thread, time))
    {
      if owner == Some(thread) {
        if hold < HOLD_MAX {
          hold := hold + 1;
        } else {
          return Full;
        }
      } else {
        if value > 0 {
          value := value - 1;
          owner := Some(thread);
          originalPriority := PrioOf(prio, thread);
          if hold < HOLD_MAX {
            hold := hold + 1;
          } else {
            return Full;
          }
        } else {
          if time == 0 {
            return Timeout;
          } else {
            if PrioOf(prio, thread) < PrioOf(prio, owner.value) {
              ChangePriority(owner.value, PrioOf(prio, thread));
            }
            waiters := Suspend(waiters, thread, prio, ByPriority);
            return Suspended;
          }
        }
      }
      return Ok;
    }

    /** The section of rt_mutex_release. */
    method ReleaseSection(thread: Tid) returns (r: Outcome)
      requires Allowed(Now(), ReleaseCall(thread))
      modifies this`value, this`owner, this`hold, this`originalPriority, this`waiters, this`prio
      ensures (Now(), r) == Step(old(Now()), ReleaseCall(thread))
    {
      if Some(thread) != owner { return Error; }
      hold := hold - 1;
      if hold == 0 {
        if originalPriority != PrioOf(prio, owner.value) {
          ChangePriority(owner.value, originalPriority);
        }
        if waiters != [] {
          var next := waiters[0];
          owner := Some(next);
          originalPriority := PrioOf(prio, next);
          if hold < HOLD_MAX {
            hold := hold + 1;
          } else {
            return Full;
          }
          waiters := waiters[1..];
        } else {
          if value < VALUE_MAX {
            value := value + 1;
          } else {
            return Full;
          }
          owner := None;
          originalPriority := 0xff;
        }
      }
      return Ok;
    }
  }

  // ----- the same steps as a state machine -----

  datatype Call = TakeCall(thread: Tid, time: int) | ReleaseCall(thread: Tid) | ExpireCall(thread: Tid)

  function Initial(prio: map<Tid, nat>): State
  {
    State(1, None, 0, 0xff, [], prio)
  }

  /** Only a thread that is not suspended makes calls; only a suspended one times out.  An owner exists
      whenever the mutex is not available (see Safe): without one, rt_mutex_take would follow a null pointer. */
  ghost predicate Allowed(s: State, c: Call)
  {
    match c
    case TakeCall(t, time) => t !in s.waiters && t in s.prio && (s.value == 0 ==> s.owner.Some?)
    case ReleaseCall(t) => t !in s.waiters && t in s.prio && (s.owner == Some(t) ==> s.hold > 0)
    case ExpireCall(t) => t in s.waiters
  }

  /** The owner's priority is raised to a more urgent waiter's. */
  function Inherit(s: State, t: Tid): map<Tid, nat>
    requires s.owner.Some?
  {
    if PrioOf(s.prio, t) < PrioOf(s.prio, s.owner.value) then s.prio[s.owner.value := PrioOf(s.prio, t)] else s.prio
  }

  function Restored(s: State): map<Tid, nat>
    requires s.owner.Some?
  {
    if PrioOf(s.prio, s.owner.value) != s.original then s.prio[s.owner.value := s.original] else s.prio
  }

  function StepTake(s: State, t: Tid, time: int): (State, Outcome)
    requires s.value == 0 ==> s.owner.Some?
  {
    if s.owner == Some(t) then
      if s.hold < HOLD_MAX then (s.(hold := s.hold + 1), Ok) else (s, Full)
    else if s.value > 0 then
      var s1 := s.(value := s.value - 1, owner := Some(t), original := PrioOf(s.prio, t));
      if s.hold < HOLD_MAX then (s1.(hold := s.hold + 1), Ok) else (s1, Full)
    else if time == 0 then (s, Timeout)
    else
      var prio := Inherit(s, t);
      (s.(prio := prio, waiters := Insert(s.waiters, t, prio)), Suspended)
  }

  function StepRelease(s: State, t: Tid): (State, Outcome)
    requires s.owner == Some(t) ==> s.hold > 0
  {
    if s.owner != Some(t) then (s, Error)
    else if s.hold > 1 then (s.(hold := s.hold - 1), Ok)
    else
      var prio := Restored(s);
      if s.waiters != [] then
        (s.(owner := Some(s.waiters[0]), original := PrioOf(prio, s.waiters[0]), prio := prio,
            waiters := s.waiters[1..], hold := 1), Ok)
      else if s.value < VALUE_MAX then
        (s.(value := s.value + 1, owner := None, original := 0xff, prio := prio, hold := 0), Ok)
      else (s.(prio := prio, hold := 0), Full)
  }

  ghost function Step(s: State, c: Call): (State, Outcome)
    requires Allowed(s, c)
  {
    match c
    case TakeCall(t, time) => StepTake(s, t, time)
    case ReleaseCall(t) => StepRelease(s, t)
    case ExpireCall(t) => (s.(waiters := Without(s.waiters, t)), Timeout)
  }

  // ----- safety and priority inheritance -----

  ghost predicate Ownership(s: State)
  {
    && s.value <= 1 && s.hold <= HOLD_MAX
    && (s.value == 1 <==> s.owner.None?) && (s.owner.None? <==> s.hold == 0)
    && (s.waiters != [] ==> s.owner.Some?)
    && (s.owner.Some? ==> s.owner.value !in s.waiters)
  }

  /** The wait list is the stable priority sort of the waiters' arrival order. */
  ghost predicate Queued(waiters: seq<Tid>, base: map<Tid, nat>, arrivals: seq<Tid>)
  {
    NoDup(arrivals) && waiters == ServeOrder(arrivals, base) && forall t :: t in waiters ==> t in base
  }

  /** Everyone runs at its own priority, except that the owner is never less urgent than a waiter. */
  ghost predicate Inherited(s: State, base: map<Tid, nat>)
  {
    && s.prio.Keys == base.Keys
    && (forall t :: t in base && s.owner != Some(t) ==> s.prio[t] == base[t])
    && (s.owner.None? ==> s.original == 0xff)
    && (s.owner.Some? ==>
          && s.owner.value in base && s.original == base[s.owner.value]
          && s.prio[s.owner.value] <= base[s.owner.value]
          && forall t :: t in s.waiters ==> s.prio[s.owner.value] <= PrioOf(base, t))
  }

  /** `base`: the priority every thread has of its own accord; `arrivals`: the waiters in order of arrival. */
  ghost predicate Safe(s: State, base: map<Tid, nat>, arrivals: seq<Tid>)
  {
    Ownership(s) && Queued(s.waiters, base, arrivals) && Inherited(s, base)
  }

  /** How the arrival order changes with a step. */
  ghost function Arrivals(s: State, arrivals: seq<Tid>, c: Call): seq<Tid>
    requires Allowed(s, c)
  {
    match c
    case TakeCall(t, time) => if Step(s, c).1 == Suspended then arrivals + [t] else arrivals
    case ReleaseCall(t) =>
      if s.owner == Some(t) && s.hold == 1 && s.waiters != [] then Without(arrivals, s.waiters[0]) else arrivals
    case ExpireCall(t) => Without(arrivals, t)
  }

  lemma InsertPrioEqual(q: seq<Tid>, t: Tid, p: map<Tid, nat>, b: map<Tid, nat>)
    requires PrioOf(p, t) == PrioOf(b, t) && forall x :: x in q ==> PrioOf(p, x) == PrioOf(b, x)
    ensures Insert(q, t, p) == Insert(q, t, b)
  {
    if q != [] { InsertPrioEqual(q[1..], t, p, b); }
  }

  lemma TakeSafe(s: State, base: map<Tid, nat>, arrivals: seq<Tid>, t: Tid, time: int)
    requires Safe(s, base, arrivals) && Allowed(s, TakeCall(t, time))
    ensures Safe(Step(s, TakeCall(t, time)).0, base, Arrivals(s, arrivals, TakeCall(t, time)))
  {
    var (s', r) := StepTake(s, t, time);
    if r == Suspended {
      InsertPrioEqual(s.waiters, t, s'.prio, base);
      JoinQueued(s.waiters, base, arrivals, t);
      assert Ownership(s');
      assert Inherited(s', base);
    }
  }

  /** Nobody in the wait list is more urgent than the first. */
  lemma HeadMostUrgent(s: State, base: map<Tid, nat>, arrivals: seq<Tid>)
    requires Safe(s, base, arrivals)
    ensures forall i :: 0 <= i < |s.waiters| ==>
      s.waiters[0] in base && s.waiters[i] in base && base[s.waiters[0]] <= base[s.waiters[i]]
  {
    ServeOrderFacts(arrivals, base);
    forall i | 0 <= i < |s.waiters|
      ensures s.waiters[0] in base && s.waiters[i] in base && base[s.waiters[0]] <= base[s.waiters[i]]
    {
      assert s.waiters[0] in s.waiters && s.waiters[i] in s.waiters;
      if i > 0 { assert PrioOf(base, s.waiters[0]) <= PrioOf(base, s.waiters[i]); }
    }
  }

  /** Where a thread that has to wait joins the list. */
  lemma JoinsBetween(s: State, base: map<Tid, nat>, arrivals: seq<Tid>, t: Tid, time: int) returns (k: nat)
    requires Safe(s, base, arrivals) && Allowed(s, TakeCall(t, time)) && StepTake(s, t, time).1 == Suspended
    ensures k <= |s.waiters| && StepTake(s, t, time).0.waiters == s.waiters[..k] + [t] + s.waiters[k..]
    ensures forall i :: 0 <= i < k ==> s.waiters[i] in base && base[s.waiters[i]] <= base[t]
    ensures forall i :: k <= i < |s.waiters| ==> s.waiters[i] in base && base[t] < base[s.waiters[i]]
  {
    InsertPrioEqual(s.waiters, t, Inherit(s, t), base);
    ServeOrderFacts(arrivals, base);
    k := SplicedBetween(s.waiters, t, base);
  }

  lemma SplicedBetween(q: seq<Tid>, t: Tid, base: map<Tid, nat>) returns (k: nat)
    requires WaitQueue.Sorted(q, base) && t in base && forall x :: x in q ==> x in base
    ensures k <= |q| && Insert(q, t, base) == q[..k] + [t] + q[k..]
    ensures forall i :: 0 <= i < k ==> q[i] in base && base[q[i]] <= base[t]
    ensures forall i :: k <= i < |q| ==> q[i] in base && base[t] < base[q[i]]
  {
    hide Insert, Place;
    k := Place(q, t, base);
    InsertAtPlace(q, t, base);
    forall i | 0 <= i < |q| ensures q[i] in base && PrioOf(base, q[i]) == base[q[i]] { assert q[i] in q; }
    assert forall i :: k < i < |q| ==> PrioOf(base, q[k]) <= PrioOf(base, q[i]);
  }

  lemma JoinQueued(waiters: seq<Tid>, base: map<Tid, nat>, arrivals: seq<Tid>, t: Tid)
    requires Queued(waiters, base, arrivals) && t in base && t !in waiters
    ensures Queued(Insert(waiters, t, base), base, arrivals + [t])
    ensures forall x :: x in Insert(waiters, t, base) ==> x == t || x in waiters
  {
    ServeOrderFacts(arrivals, base);
    SuspendMembers(waiters, t, base, ByPriority);
    assert (arrivals + [t])[..|arrivals|] == arrivals;
  }

  lemma LeaveQueued(waiters: seq<Tid>, base: map<Tid, nat>, arrivals: seq<Tid>, t: Tid)
    requires Queued(waiters, base, arrivals)
    ensures Queued(Without(waiters, t), base, Without(arrivals, t)) && t !in Without(waiters, t)
    ensures forall x :: x in Without(waiters, t) ==> x in waiters
  {
    ServeOrderFacts(arrivals, base);
    ServeOrderWithout(arrivals, t, base);
    WithoutMembers(arrivals, t);
    WithoutMembers(waiters, t);
  }

  lemma HandOffSafe(s: State, base: map<Tid, nat>, arrivals: seq<Tid>, t: Tid)
    requires Safe(s, base, arrivals) && s.owner == Some(t) && s.hold == 1 && s.waiters != []
    ensures Safe(StepRelease(s, t).0, base, Without(arrivals, s.waiters[0]))
  {
    var head, s' := s.waiters[0], StepRelease(s, t).0;
    LeaveQueued(s.waiters, base, arrivals, head);
    WithoutHeadIsTail(s.waiters);
    ServeOrderFacts(arrivals, base);
    HeadIsLeast(s.waiters, base);
    assert head in s.waiters;
    assert forall x :: x in base ==> s'.prio[x] == base[x];
    assert Ownership(s');
    assert Inherited(s', base);
  }

  lemma ReleaseSafe(s: State, base: map<Tid, nat>, arrivals: seq<Tid>, t: Tid)
    requires Safe(s, base, arrivals) && Allowed(s, ReleaseCall(t))
    ensures Safe(Step(s, ReleaseCall(t)).0, base, Arrivals(s, arrivals, ReleaseCall(t)))
  {
    if s.owner == Some(t) && s.hold == 1 && s.waiters != [] { HandOffSafe(s, base, arrivals, t); }
  }

  lemma ExpireSafe(s: State, base: map<Tid, nat>, arrivals: seq<Tid>, t: Tid)
    requires Safe(s, base, arrivals) && Allowed(s, ExpireCall(t))
    ensures Safe(Step(s, ExpireCall(t)).0, base, Arrivals(s, arrivals, ExpireCall(t)))
  {
    LeaveQueued(s.waiters, base, arrivals, t);
  }

  // ----- whole runs -----

  ghost predicate IsRun(s: State, calls: seq<Call>)
    decreases |calls|
  {
    calls != [] ==> Allowed(s, calls[0]) && IsRun(Step(s, calls[0]).0, calls[1..])
  }

  ghost function After(s: State, calls: seq<Call>): State
    requires IsRun(s, calls)
    decreases |calls|
  {
    if calls == [] then s else After(Step(s, calls[0]).0, calls[1..])
  }

  ghost function ArrivalsAfter(s: State, arrivals: seq<Tid>, calls: seq<Call>): seq<Tid>
    requires IsRun(s, calls)
    decreases |calls|
  {
    if calls == [] then arrivals
    else ArrivalsAfter(Step(s, calls[0]).0, Arrivals(s, arrivals, calls[0]), calls[1..])
  }

  lemma StepSafe(s: State, base: map<Tid, nat>, arrivals: seq<Tid>, c: Call)
    requires Safe(s, base, arrivals) && Allowed(s, c)
    ensures Safe(Step(s, c).0, base, Arrivals(s, arrivals, c))
  {
    match c
    case TakeCall(t, time) => TakeSafe(s, base, arrivals, t, time);
    case ReleaseCall(t) => ReleaseSafe(s, base, arrivals, t);
    case ExpireCall(t) => ExpireSafe(s, base, arrivals, t);
  }

  lemma {:induction false} RunSafe(s: State, base: map<Tid, nat>, arrivals: seq<Tid>, calls: seq<Call>)
    requires Safe(s, base, arrivals) && IsRun(s, calls)
    ensures Safe(After(s, calls), base, ArrivalsAfter(s, arrivals, calls))
    decreases |calls|
  {
    if calls != [] {
      StepSafe(s, base, arrivals, calls[0]);
      RunSafe(Step(s, calls[0]).0, base, Arrivals(s, arrivals, calls[0]), calls[1..]);
    }
  }

  /** Every state reachable from rt_mutex_init is safe, and its wait list is the stable priority sort of
      the order in which the waiters arrived. */
  lemma ReachableSafe(base: map<Tid, nat>, calls: seq<Call>)
    requires IsRun(Initial(base), calls)
    ensures Safe(After(Initial(base), calls), base, ArrivalsAfter(Initial(base), [], calls))
  {
    RunSafe(Initial(base), base, [], calls);
  }

  /** In a safe state the null-owner and zero-hold hazards are gone: any running thread may call. */
  lemma RunningThreadMayCall(s: State, base: map<Tid, nat>, arrivals: seq<Tid>, t: Tid, time: int)
    requires Safe(s, base, arrivals) && t in base && t !in s.waiters
    ensures Allowed(s, TakeCall(t, time)) && Allowed(s, ReleaseCall(t))
  {
  }

  /** The overflow exits: the only one reachable is the owner's 256th nested take. */
  lemma OverflowOnlyWhenNested(s: State, base: map<Tid, nat>, arrivals: seq<Tid>, c: Call)
    requires Safe(s, base, arrivals) && Allowed(s, c)
    ensures Step(s, c).1 == Full <==> c.TakeCall? && s.owner == Some(c.thread) && s.hold == HOLD_MAX
  {
  }

  /** A release that gives the mutex up restores the releasing thread's own priority, and if anyone waits it
      hands the mutex to the most urgent waiter (the earliest of equals) at once. */
  lemma FullRelease(s: State, base: map<Tid, nat>, arrivals: seq<Tid>, t: Tid)
    requires Safe(s, base, arrivals) && Allowed(s, ReleaseCall(t)) && s.owner == Some(t) && s.hold == 1
    ensures var s' := Step(s, ReleaseCall(t)).0;
      && s'.prio[t] == base[t]
      && (arrivals == [] ==> s'.owner.None?)
      && (arrivals != [] ==> s'.owner == Some(ServeOrder(arrivals, base)[0]) && s'.hold == 1)
      && (forall x :: x in arrivals ==> PrioOf(base, s.waiters[0]) <= PrioOf(base, x))
  {
    ServeOrderFacts(arrivals, base);
    if arrivals != [] {
      assert arrivals[0] in s.waiters;
      assert s.waiters[0] in s.waiters;
    }
    forall x | x in arrivals ensures PrioOf(base, s.waiters[0]) <= PrioOf(base, x) {
      assert x in s.waiters;
      var i :| 0 <= i < |s.waiters| && s.waiters[i] == x;
      if i > 0 { assert PrioOf(base, s.waiters[0]) <= PrioOf(base, s.waiters[i]); }
    }
  }

  // ----- the boost is exactly what the blocked threads call for -----

  /** The threads that have blocked on the mutex since its owner acquired it. */
  ghost function Pressers(s: State, pressers: set<Tid>, c: Call): set<Tid>
    requires Allowed(s, c)
  {
    match c
    case TakeCall(t, time) => if Step(s, c).1 == Suspended then pressers + {t} else pressers
    case ReleaseCall(t) => if s.owner == Some(t) && s.hold == 1 then {} else pressers
    case ExpireCall(t) => pressers
  }

  /** The owner runs at the most urgent of its own priority and those of `pressers`: no more, no less. */
  ghost predicate BoostExact(s: State, base: map<Tid, nat>, pressers: set<Tid>)
    requires s.prio.Keys == base.Keys
  {
    && pressers <= base.Keys
    && (s.owner.None? ==> pressers == {})
    && (s.owner.Some? && s.owner.value in base ==>
          var p := s.prio[s.owner.value];
          && (p == base[s.owner.value] || exists x :: x in pressers && p == base[x])
          && p <= base[s.owner.value] && forall x :: x in pressers ==> p <= base[x])
  }

  lemma StepBoost(s: State, base: map<Tid, nat>, arrivals: seq<Tid>, pressers: set<Tid>, c: Call)
    requires Safe(s, base, arrivals) && Allowed(s, c) && BoostExact(s, base, pressers)
    ensures Step(s, c).0.prio.Keys == base.Keys && BoostExact(Step(s, c).0, base, Pressers(s, pressers, c))
  {
    StepSafe(s, base, arrivals, c);
    match c
    case TakeCall(t, time) => TakeBoost(s, base, arrivals, pressers, t, time);
    case ReleaseCall(t) => ReleaseBoost(s, base, arrivals, pressers, t);
    case ExpireCall(t) =>
  }

  lemma TakeBoost(s: State, base: map<Tid, nat>, arrivals: seq<Tid>, pressers: set<Tid>, t: Tid, time: int)
    requires Safe(s, base, arrivals) && Allowed(s, TakeCall(t, time)) && BoostExact(s, base, pressers)
    ensures var s' := StepTake(s, t, time).0;
      s'.prio.Keys == base.Keys && BoostExact(s', base, Pressers(s, pressers, TakeCall(t, time)))
  {
    hide Queued;
    if StepTake(s, t, time).1 == Suspended {
      assert s.prio[t] == base[t] && t in pressers + {t};
    }
  }

  lemma ReleaseBoost(s: State, base: map<Tid, nat>, arrivals: seq<Tid>, pressers: set<Tid>, t: Tid)
    requires Safe(s, base, arrivals) && Allowed(s, ReleaseCall(t)) && BoostExact(s, base, pressers)
    ensures var s' := StepRelease(s, t).0;
      s'.prio.Keys == base.Keys && BoostExact(s', base, Pressers(s, pressers, ReleaseCall(t)))
  {
    if s.owner == Some(t) && s.hold == 1 && s.waiters != [] { assert s.waiters[0] in s.waiters; }
  }

  ghost function PressersAfter(s: State, pressers: set<Tid>, calls: seq<Call>): set<Tid>
    requires IsRun(s, calls)
    decreases |calls|
  {
    if calls == [] then pressers
    else PressersAfter(Step(s, calls[0]).0, Pressers(s, pressers, calls[0]), calls[1..])
  }

  lemma {:induction false} RunBoost(s: State, base: map<Tid, nat>, arrivals: seq<Tid>, pressers: set<Tid>, calls: seq<Call>)
    requires Safe(s, base, arrivals) && BoostExact(s, base, pressers) && IsRun(s, calls)
    ensures After(s, calls).prio.Keys == base.Keys
    ensures BoostExact(After(s, calls), base, PressersAfter(s, pressers, calls))
    decreases |calls|
  {
    if calls != [] {
      var c := calls[0];
      StepSafe(s, base, arrivals, c);
      StepBoost(s, base, arrivals, pressers, c);
      RunBoost(Step(s, c).0, base, Arrivals(s, arrivals, c), Pressers(s, pressers, c), calls[1..]);
    }
  }

  // ----- nesting: takes and releases balance -----

  /** How deep `t` is in the mutex. */
  ghost function Depth(s: State, t: Tid): nat
  {
    if s.owner == Some(t) then s.hold else 0
  }

  /** +1 when the step completes one of `t`'s takes (at once, or by hand-off), -1 when `t` releases. */
  ghost function Gain(s: State, c: Call, t: Tid): int
    requires Allowed(s, c)
  {
    match c
    case TakeCall(x, time) => if x == t && Step(s, c).1 == Ok then 1 else 0
    case ReleaseCall(x) =>
      (if x == t && Step(s, c).1 == Ok then -1 else 0)
      + (if s.owner == Some(x) && s.hold == 1 && s.waiters != [] && s.waiters[0] == t then 1 else 0)
    case ExpireCall(x) => 0
  }

  ghost function Balance(s: State, calls: seq<Call>, t: Tid): int
    requires IsRun(s, calls)
    decreases |calls|
  {
    if calls == [] then 0 else Gain(s, calls[0], t) + Balance(Step(s, calls[0]).0, calls[1..], t)
  }

  lemma {:induction false} DepthIsBalance(s: State, base: map<Tid, nat>, arrivals: seq<Tid>, calls: seq<Call>, t: Tid)
    requires Safe(s, base, arrivals) && IsRun(s, calls)
    ensures Depth(After(s, calls), t) == Depth(s, t) + Balance(s, calls, t)
    decreases |calls|
  {
    if calls != [] {
      var c := calls[0];
      StepSafe(s, base, arrivals, c);
      assert Depth(Step(s, c).0, t) == Depth(s, t) + Gain(s, c, t);
      DepthIsBalance(Step(s, c).0, base, Arrivals(s, arrivals, c), calls[1..], t);
    }
  }

  /** Over any run from rt_mutex_init, a thread owns the mutex exactly while its completed takes outnumber
      its releases: n nested takes need exactly n releases. */
  lemma TakesAndReleasesBalance(base: map<Tid, nat>, calls: seq<Call>, t: Tid)
    requires IsRun(Initial(base), calls)
    ensures Depth(After(Initial(base), calls), t) == Balance(Initial(base), calls, t)
    ensures After(Initial(base), calls).owner == Some(t) <==> Balance(Initial(base), calls, t) > 0
  {
    DepthIsBalance(Initial(base), base, [], calls, t);
    RunSafe(Initial(base), base, [], calls);
  }
}
