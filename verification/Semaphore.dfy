/** The counting semaphore of ipc.c, and its use as the lock of the two heaps.

    A release with waiters hands its permit straight to the first of them: unlike a mailbox's, a woken thread does not
    look again. */
module Semaphore {
  import opened Sequences
  import opened WaitQueue
  import opened Waiting

  const VALUE_MAX := 0xffff    // RT_SEM_VALUE_MAX

  // RT_EOK, -RT_EFULL, -RT_ETIMEOUT; Suspended: the call has not returned yet
  datatype Outcome = Ok | Full | Timeout | Suspended

  datatype State = State(value: nat, waiters: seq<Tid>)

  datatype Call = Take(thread: Tid, time: int) | Release(thread: Tid) | Expire(thread: Tid)

  /** A suspended thread makes no calls, and only a suspended one times out. */
  ghost predicate Allowed(s: State, c: Call)
  {
    if c.Expire? then c.thread in s.waiters else c.thread !in s.waiters
  }

  function Step(s: State, c: Call, p: Policy): (State, Outcome)
  {
    match c
    case Take(t, time) =>
      if s.value > 0 then (s.(value := s.value - 1), Ok)
      else if time == 0 then (s, Timeout)
      else (s.(waiters := Suspend(s.waiters, t, p.prio, p.flag)), Suspended)
    case Release(t) =>
      if s.waiters != [] then (s.(waiters := s.waiters[1..]), Ok)
      else if s.value < VALUE_MAX then (s.(value := s.value + 1), Ok)
      else (s, Full)
    case Expire(t) => (s.(waiters := Without(s.waiters, t)), Timeout)
  }

  class RtSemaphore {
    var value: nat
    var waiters: seq<Tid>         // parent.suspend_thread
    const policy: Policy

    ghost function Now(): State
      reads this
    {
      State(value, waiters)
    }

    /** rt_sem_init. */
    constructor (value: nat, policy: Policy)
      requires value <= VALUE_MAX
      ensures Now() == State(value, []) && this.policy == policy && Safe(Now())
    {
      this.value, waiters, this.policy := value, [], policy;
    }

    /** rt_sem_take, up to its return or suspension. */
    method TakePermit(thread: Tid, time: int) returns (r: Outcome)
      requires Safe(Now()) && Allowed(Now(), Take(thread, time))
      modifies this
      ensures (Now(), r) == Step(old(Now()), Take(thread, time), policy) && Safe(Now())
      // a permit is there: taken, whatever the timeout
      ensures old(value) > 0 ==> r == Ok && value == old(value) - 1 && waiters == old(waiters)
      ensures old(value) == 0 && time == 0 ==> r == Timeout && value == 0 && waiters == old(waiters)
      ensures old(value) == 0 && time != 0 ==>
        r == Suspended && value == 0 && waiters == Suspend(old(waiters), thread, policy.prio, policy.flag)
    {
      StepSafe(Now(), Take(thread, time), policy);
      if value > 0 {
        value := value - 1;
      } else {
        if time == 0 {
          return Timeout;
        } else {
          waiters := Suspend(waiters, thread, policy.prio, policy.flag);
          return Suspended;
        }
      }
      return Ok;
    }

    /** rt_sem_release. */
    method ReleasePermit(thread: Tid) returns (r: Outcome)
      requires Safe(Now()) && Allowed(Now(), Release(thread))
      modifies this
      ensures (Now(), r) == Step(old(Now()), Release(thread), policy) && Safe(Now())
      // handed to the first waiter; or one more, up to 65535
      ensures old(waiters) != [] ==> r == Ok && value == 0 && waiters == old(waiters)[1..]
      ensures old(waiters) == [] && old(value) < 0xffff ==> r == Ok && value == old(value) + 1 && waiters == []
      ensures old(waiters) == [] && old(value) >= 0xffff ==> r == Full && value == 0xffff && waiters == []
    {
      StepSafe(Now(), Release(thread), policy);
      if waiters != [] {
        waiters := waiters[1..];
      } else {
        if value < VALUE_MAX {
          value := value + 1;
        } else {
          return Full;
        }
      }
      return Ok;
    }

    /** A waiter's timer. */
    method ExpireWaiter(thread: Tid)
      requires Safe(Now()) && Allowed(Now(), Expire(thread))
      modifies this`waiters
      ensures Now() == Step(old(Now()), Expire(thread), policy).0 && Safe(Now())
    {
      StepSafe(Now(), Expire(thread), policy);
      waiters := Without(waiters, thread);
    }
  }

  // ----- safety -----

  /** Nobody waits while a permit is there. */
  ghost predicate Safe(s: State)
  {
    s.value <= VALUE_MAX && NoDup(s.waiters) && (s.waiters != [] ==> s.value == 0)
  }

  lemma StepSafe(s: State, c: Call, p: Policy)
    requires Safe(s) && Allowed(s, c)
    ensures Safe(Step(s, c, p).0)
  {
    match c
    case Take(t, time) => SuspendMembers(s.waiters, t, p.prio, p.flag);
    case Release(t) =>
    case Expire(t) => WithoutMembers(s.waiters, t);
  }

  ghost predicate IsRun(s: State, calls: seq<Call>, p: Policy)
    decreases |calls|
  {
    calls != [] ==> Allowed(s, calls[0]) && IsRun(Step(s, calls[0], p).0, calls[1..], p)
  }

  function After(s: State, calls: seq<Call>, p: Policy): State
    decreases |calls|
  {
    if calls == [] then s else After(Step(s, calls[0], p).0, calls[1..], p)
  }

  // ----- permits are conserved -----

  /** Permits a step hands out, less those it takes back. */
  function Granted(s: State, c: Call, p: Policy): int
  {
    match c
    case Take(t, time) => if Step(s, c, p).1 == Ok then 1 else 0
    case Release(t) => (if Step(s, c, p).1 == Ok then -1 else 0) + (if s.waiters != [] then 1 else 0)
    case Expire(t) => 0
  }

  function Balance(s: State, calls: seq<Call>, p: Policy): int
    decreases |calls|
  {
    if calls == [] then 0 else Granted(s, calls[0], p) + Balance(Step(s, calls[0], p).0, calls[1..], p)
  }

  /** Over any run the permits handed out and the value make up the initial value, and nobody is left waiting for a
      permit that is there. */
  lemma {:induction false} PermitsConserved(s: State, calls: seq<Call>, p: Policy)
    requires Safe(s) && IsRun(s, calls, p)
    ensures After(s, calls, p).value + Balance(s, calls, p) == s.value
    ensures Safe(After(s, calls, p))
    decreases |calls|
  {
    if calls != [] {
      StepSafe(s, calls[0], p);
      PermitsConserved(Step(s, calls[0], p).0, calls[1..], p);
    }
  }

  // ----- as a lock -----

  /** Who holds a permit once a step is done. */
  function Holders(s: State, held: set<Tid>, c: Call, p: Policy): set<Tid>
  {
    match c
    case Take(t, time) => if Step(s, c, p).1 == Ok then held + {t} else held
    case Release(t) => held - {t} + (if s.waiters != [] then {s.waiters[0]} else {})
    case Expire(t) => held
  }

  /** Locking discipline: release what you hold, and do not take it again. */
  ghost predicate Disciplined(s: State, held: set<Tid>, calls: seq<Call>, p: Policy)
    decreases |calls|
  {
    calls != [] ==>
      && (calls[0].Release? ==> calls[0].thread in held) && (calls[0].Take? ==> calls[0].thread !in held)
      && Disciplined(Step(s, calls[0], p).0, Holders(s, held, calls[0], p), calls[1..], p)
  }

  function HoldersAfter(s: State, held: set<Tid>, calls: seq<Call>, p: Policy): set<Tid>
    decreases |calls|
  {
    if calls == [] then held else HoldersAfter(Step(s, calls[0], p).0, Holders(s, held, calls[0], p), calls[1..], p)
  }

  /** One permit, free or held by one thread, and never by a thread that waits. */
  ghost predicate Lock(s: State, held: set<Tid>)
  {
    Safe(s) && s.value + |held| == 1 && forall t :: t in s.waiters ==> t !in held
  }

  lemma OneMore(held: set<Tid>, t: Tid)
    requires t !in held
    ensures |held + {t}| == |held| + 1
  {
  }

  lemma StepLock(s: State, held: set<Tid>, c: Call, p: Policy)
    requires Lock(s, held) && Allowed(s, c)
    requires (c.Release? ==> c.thread in held) && (c.Take? ==> c.thread !in held)
    ensures Lock(Step(s, c, p).0, Holders(s, held, c, p))
  {
    StepSafe(s, c, p);
    match c
    case Take(t, time) => SuspendMembers(s.waiters, t, p.prio, p.flag);
    case Release(t) =>
      assert |held - {t}| == |held| - 1;
      if s.waiters != [] {
        HeadOf(s.waiters);
        OneMore(held - {t}, s.waiters[0]);
      } else {
        assert Holders(s, held, c, p) == held - {t};
      }
    case Expire(t) => WithoutMembers(s.waiters, t);
  }

  /** Mutual exclusion: started at 1 and used with discipline, at most one thread is ever inside, and a waiting thread
      means that somebody is. */
  lemma {:induction false} MutualExclusion(s: State, held: set<Tid>, calls: seq<Call>, p: Policy)
    requires Lock(s, held) && IsRun(s, calls, p) && Disciplined(s, held, calls, p)
    ensures Lock(After(s, calls, p), HoldersAfter(s, held, calls, p))
    ensures |HoldersAfter(s, held, calls, p)| <= 1
    ensures After(s, calls, p).waiters != [] ==> |HoldersAfter(s, held, calls, p)| == 1
    decreases |calls|
  {
    if calls != [] {
      StepLock(s, held, calls[0], p);
      MutualExclusion(Step(s, calls[0], p).0, Holders(s, held, calls[0], p), calls[1..], p);
    }
  }
}
