/** The mailbox of ipc.c: a ring of words, with threads waiting to receive and threads waiting to send.

    Each section that runs with interrupts disabled is one step: rt_mb_send_wait and rt_mb_recv take one
    step per pass of their wait loop, so a thread woken from its queue has yet to look again (`woken`) and
    others may run first and take what it was woken for. */
module Mailbox {
  import opened Sequences
  import opened WaitQueue
  import opened Waiting
  import Deque

  const ENTRY_MAX := 0xffff    // RT_MB_ENTRY_MAX
  const TWO16 := 0x1_0000

  // RT_EOK (with the mail, for rt_mb_recv), -RT_EFULL, -RT_ETIMEOUT; Suspended: the call has not returned yet
  datatype Outcome = Ok | Received(value: int) | Full | Timeout | Suspended

  // ----- the mailbox as a bounded deque -----

  datatype State = State(mails: seq<int>, size: nat, receivers: seq<Tid>, senders: seq<Tid>,
                         wokenReceivers: set<Tid>, wokenSenders: set<Tid>)

  datatype Call =
    | Send(thread: Tid, value: int, timeout: int)    // one pass of rt_mb_send_wait
    | Urgent(value: int)                             // rt_mb_urgent
    | Recv(thread: Tid, timeout: int)                // one pass of rt_mb_recv
    | Expire(thread: Tid)                            // a waiter's timer
    | Reset                                          // rt_mb_control(RT_IPC_CMD_RESET)

  /** Suspended threads make no calls, and a woken one finishes the call it was suspended in. */
  ghost predicate Allowed(s: State, c: Call)
  {
    match c
    case Send(t, v, timeout) => t !in s.receivers && t !in s.senders && t !in s.wokenReceivers
    case Urgent(v) => true
    case Recv(t, timeout) => t !in s.receivers && t !in s.senders && t !in s.wokenSenders
    case Expire(t) => t in s.receivers || t in s.senders
    case Reset => true
  }

  function WakeReceiver(s: State): State
  {
    if s.receivers == [] then s
    else s.(receivers := s.receivers[1..], wokenReceivers := s.wokenReceivers + {s.receivers[0]})
  }

  function WakeSender(s: State): State
  {
    if s.senders == [] then s
    else s.(senders := s.senders[1..], wokenSenders := s.wokenSenders + {s.senders[0]})
  }

  function Step(s: State, c: Call, p: Policy): (State, Outcome)
  {
    match c
    case Send(t, v, timeout) =>
      var s0 := s.(wokenSenders := s.wokenSenders - {t});
      if |s.mails| < s.size then (WakeReceiver(s0.(mails := s.mails + [v])), Ok)
      else if timeout == 0 then (s0, Full)
      else (s0.(senders := Suspend(s.senders, t, p.prio, p.flag)), Suspended)
    case Urgent(v) =>
      if |s.mails| < s.size then (WakeReceiver(s.(mails := [v] + s.mails)), Ok) else (s, Full)
    case Recv(t, timeout) =>
      var s0 := s.(wokenReceivers := s.wokenReceivers - {t});
      if s.mails != [] then (WakeSender(s0.(mails := s.mails[1..])), Received(s.mails[0]))
      else if timeout == 0 then (s0, Timeout)
      else (s0.(receivers := Suspend(s.receivers, t, p.prio, p.flag)), Suspended)
    case Expire(t) => (s.(receivers := Without(s.receivers, t), senders := Without(s.senders, t)), Timeout)
    case Reset => (s.(mails := [], receivers := [], senders := []), Ok)
  }

  // ----- nobody is stranded -----

  ghost predicate Safe(s: State)
  {
    && |s.mails| <= s.size
    && Queues(s.receivers, s.wokenReceivers) && Queues(s.senders, s.wokenSenders)
    && Covered(|s.mails|, s.receivers, s.wokenReceivers)
    && Covered(s.size - |s.mails|, s.senders, s.wokenSenders)
  }

  lemma StepSafe(s: State, c: Call, p: Policy)
    requires Safe(s) && Allowed(s, c)
    ensures Safe(Step(s, c, p).0)
  {
    match c
    case Send(t, v, timeout) =>
      LookCovers(s.size - |s.mails|, s.senders, s.wokenSenders, t);
      if |s.mails| < s.size {
        if s.receivers != [] { WakeCovers(|s.mails|, s.receivers, s.wokenReceivers); }
      } else if timeout != 0 {
        SuspendQueues(s.senders, s.wokenSenders, t, p);
      }
    case Urgent(v) =>
      if |s.mails| < s.size && s.receivers != [] { WakeCovers(|s.mails|, s.receivers, s.wokenReceivers); }
    case Recv(t, timeout) =>
      LookCovers(|s.mails|, s.receivers, s.wokenReceivers, t);
      if s.mails != [] {
        if s.senders != [] { WakeCovers(s.size - |s.mails|, s.senders, s.wokenSenders); }
      } else if timeout != 0 {
        SuspendQueues(s.receivers, s.wokenReceivers, t, p);
      }
    case Expire(t) =>
      WithoutMembers(s.receivers, t);
      WithoutMembers(s.senders, t);
    case Reset =>
  }

  // ----- whole runs -----

  ghost predicate IsRun(s: State, calls: seq<Call>, p: Policy)
    decreases |calls|
  {
    calls != [] ==> Allowed(s, calls[0]) && IsRun(Step(s, calls[0], p).0, calls[1..], p)
  }

  function After(s: State, calls: seq<Call>, p: Policy): State
    decreases |calls|
  {
    if calls == [] then s else After(Step(s, calls[0], p).0, calls[1..], p)
  }

  function Initial(size: nat): State
  {
    State([], size, [], [], {}, {})
  }

  lemma {:induction false} RunSafe(s: State, calls: seq<Call>, p: Policy)
    requires Safe(s) && IsRun(s, calls, p)
    ensures Safe(After(s, calls, p))
    decreases |calls|
  {
    if calls != [] {
      StepSafe(s, calls[0], p);
      RunSafe(Step(s, calls[0], p).0, calls[1..], p);
    }
  }

  /** In every interleaving, once every woken thread has looked again, a suspended receiver means an empty
      mailbox and a suspended sender a full one. */
  lemma NobodyStranded(size: nat, calls: seq<Call>, p: Policy)
    requires IsRun(Initial(size), calls, p)
    ensures var s := After(Initial(size), calls, p);
      && (s.receivers != [] ==> |s.mails| <= |s.wokenReceivers|)
      && (s.senders != [] ==> s.size - |s.mails| <= |s.wokenSenders|)
      && (s.receivers != [] && s.wokenReceivers == {} ==> s.mails == [])
      && (s.senders != [] && s.wokenSenders == {} ==> |s.mails| == s.size)
  {
    RunSafe(Initial(size), calls, p);
  }

  // ----- the order of the mails -----

  /** What a step does to the box as a double-ended queue. */
  function OpOf(s: State, c: Call, p: Policy): seq<Deque.Op<int>>
  {
    match (c, Step(s, c, p).1)
    case (Send(_, v, _), Ok) => [Deque.Back(v)]
    case (Urgent(v), Ok) => [Deque.Front(v)]
    case (Recv(_, _), Received(v)) => [Deque.Out(v)]
    case (Reset, _) => [Deque.Clear]
    case _ => []
  }

  function OpsBy(s: State, calls: seq<Call>, p: Policy): seq<Deque.Op<int>>
    decreases |calls|
  {
    if calls == [] then [] else OpOf(s, calls[0], p) + OpsBy(Step(s, calls[0], p).0, calls[1..], p)
  }

  lemma StepLegal(s: State, c: Call, p: Policy)
    ensures Deque.Legal(s.mails, OpOf(s, c, p), Step(s, c, p).0.mails)
  {
    var ops := OpOf(s, c, p);
    if ops != [] { assert ops[1..] == []; }
  }

  lemma {:induction false} RunLegal(s: State, calls: seq<Call>, p: Policy)
    ensures Deque.Legal(s.mails, OpsBy(s, calls, p), After(s, calls, p).mails)
    decreases |calls|
  {
    if calls != [] {
      var c, s' := calls[0], Step(s, calls[0], p).0;
      StepLegal(s, c, p);
      RunLegal(s', calls[1..], p);
      Deque.LegalAppend(s.mails, OpOf(s, c, p), s'.mails, OpsBy(s', calls[1..], p), After(s', calls[1..], p).mails);
    }
  }

  /** Over every interleaving the mails go through the box as through a double-ended queue: each received mail was the
      first one in the box, and every mail put in is received, dropped by a reset, or still there.  Urgent mail and
      reset aside, what has been received is exactly the oldest part of what was sent. */
  lemma FirstInFirstOut(s: State, calls: seq<Call>, p: Policy)
    ensures var ops, mails := OpsBy(s, calls, p), After(s, calls, p).mails;
      && Deque.Legal(s.mails, ops, mails)
      && (Deque.NoUrgentOrReset(ops) ==> s.mails + Deque.Sent(ops) == Deque.Received(ops) + mails)
      && forall v: int :: Deque.Balanced(s.mails, ops, mails, v)
  {
    var ops, mails := OpsBy(s, calls, p), After(s, calls, p).mails;
    RunLegal(s, calls, p);
    if Deque.NoUrgentOrReset(ops) { Deque.FirstInFirstOut(s.mails, ops, mails); }
    forall v: int ensures Deque.Balanced(s.mails, ops, mails, v) { Deque.NothingLost(s.mails, ops, mails, v); }
  }

  // ----- the ring -----

  /** The mails in a ring of `size` slots, oldest first. */
  ghost function Ring(pool: seq<int>, out: nat, entry: nat, size: nat): seq<int>
    requires out <= size <= |pool| && entry <= size
  {
    if out + entry <= size then pool[out..out + entry] else pool[out..size] + pool[..out + entry - size]
  }

  lemma RingLength(pool: seq<int>, out: nat, entry: nat, size: nat)
    requires out <= size <= |pool| && entry <= size
    ensures |Ring(pool, out, entry, size)| == entry
  {
  }

  /** Slot by slot, with wrap-around. */
  lemma RingAt(pool: seq<int>, out: nat, entry: nat, size: nat, k: nat)
    requires out <= size <= |pool| && k < entry <= size
    ensures Ring(pool, out, entry, size)[k] == pool[if out + k < size then out + k else out + k - size]
  {
  }

  lemma RingAppend(pool: seq<int>, at: nat, entry: nat, size: nat, v: int)
    requires at < size <= |pool| && entry < size
    ensures var to := if at + entry < size then at + entry else at + entry - size;
      Ring(pool[to := v], at, entry + 1, size) == Ring(pool, at, entry, size) + [v]
  {
  }

  lemma RingPrepend(pool: seq<int>, at: nat, entry: nat, size: nat, v: int)
    requires at < size <= |pool| && entry < size
    ensures var to := if at > 0 then at - 1 else size - 1;
      Ring(pool[to := v], to, entry + 1, size) == [v] + Ring(pool, at, entry, size)
  {
    if at > 0 {
      PrependBelow(pool, at, entry, size, v);
    } else {
      var p := pool[size - 1 := v];
      assert p[size - 1..size] == [v] && p[..entry] == pool[..entry];
    }
  }

  lemma PrependBelow(pool: seq<int>, at: nat, entry: nat, size: nat, v: int)
    requires 0 < at < size <= |pool| && entry < size
    ensures Ring(pool[at - 1 := v], at - 1, entry + 1, size) == [v] + Ring(pool, at, entry, size)
  {
    var p := pool[at - 1 := v];
    if at + entry <= size {
      assert p[at..at + entry] == pool[at..at + entry];
      assert p[at - 1..at + entry] == [p[at - 1]] + p[at..at + entry];
    } else {
      var older, newer := pool[at..size], pool[..at + entry - size];
      assert p[at..size] == older && p[at - 1..size] == [p[at - 1]] + p[at..size];
      assert p[..at + entry - size] == newer;
      assert [v] + older + newer == [v] + (older + newer);
    }
  }

  lemma RingTake(pool: seq<int>, at: nat, entry: nat, size: nat)
    requires at < size <= |pool| && 0 < entry <= size
    ensures var next := if at + 1 < size then at + 1 else 0;
      Ring(pool, at, entry, size) == [pool[at]] + Ring(pool, next, entry - 1, size)
  {
  }

  class RtMailbox {
    var msgPool: array<int>
    var size: nat
    var entry: nat
    var inOffset: nat
    var outOffset: nat
    var receivers: seq<Tid>           // parent.suspend_thread
    var senders: seq<Tid>             // suspend_sender_thread
    const policy: Policy

    ghost var wokenReceivers: set<Tid>
    ghost var wokenSenders: set<Tid>

    ghost predicate Offsets()
      reads this
    {
      && size < TWO16 && size <= msgPool.Length && entry <= size
      && (if size == 0 then inOffset == outOffset == 0
          else outOffset < size
               && inOffset == if outOffset + entry < size then outOffset + entry else outOffset + entry - size)
    }

    ghost function Now(): State
      reads this, msgPool
      requires Offsets()
    {
      State(Ring(msgPool[..], outOffset, entry, size), size, receivers, senders, wokenReceivers, wokenSenders)
    }

    ghost predicate Valid()
      reads this, msgPool
    {
      Offsets() && Safe(Now())
    }

    /** rt_mb_init.  The size field has 16 bits. */
    constructor (pool: array<int>, size: nat, policy: Policy)
      requires pool.Length >= size
      ensures Valid() && Now() == Initial(size % TWO16) && msgPool == pool
    {
      msgPool, this.policy := pool, policy;
      this.size, entry, inOffset, outOffset := size % TWO16, 0, 0, 0;
      receivers, senders, wokenReceivers, wokenSenders := [], [], {}, {};
    }

    /** rt_mb_send_wait: one pass, from the test of `entry` to the next rt_hw_interrupt_enable. */
    method SendPass(thread: Tid, value: int, timeout: int) returns (r: Outcome)
      requires Valid() && Allowed(Now(), Send(thread, value, timeout))
      modifies this`entry, this`inOffset, this`receivers, this`senders, this`wokenReceivers, this`wokenSenders, msgPool
      ensures Valid()
      ensures (Now(), r) == Step(old(Now()), Send(thread, value, timeout), policy)
      // room: stored last, and the first receiver is woken
      ensures old(entry) < size ==>
        && r == Ok && Now().mails == old(Now()).mails + [value] && msgPool[old(inOffset)] == value
        && receivers == (if old(receivers) == [] then [] else old(receivers)[1..]) && senders == old(senders)
      // full: refused, or queued
      ensures old(entry) == size ==>
        && r == (if timeout == 0 then Full else Suspended) && Now().mails == old(Now()).mails
        && receivers == old(receivers)
        && senders == if timeout == 0 then old(senders) else Suspend(old(senders), thread, policy.prio, policy.flag)
    {
      StepSafe(Now(), Send(thread, value, timeout), policy);
      RingLength(msgPool[..], outOffset, entry, size);
      hide Ring, Safe, Suspend;
      r := SendSection(thread, value, timeout);
    }

    method SendSection(thread: Tid, value: int, timeout: int) returns (r: Outcome)
      requires Offsets() && |Now().mails| == entry
      modifies this`entry, this`inOffset, this`receivers, this`senders, this`wokenReceivers, this`wokenSenders, msgPool
      ensures Offsets() && (Now(), r) == Step(old(Now()), Send(thread, value, timeout), policy)
      ensures old(entry) < size ==> msgPool[old(inOffset)] == value
    {
      hide Ring;
      LookAsSender(thread);
      if entry == size {
        if timeout == 0 { return Full; }
        SuspendSender(thread);
        return Suspended;
      }
      r := Append(value);
      if r == Full { return; }
      ResumeReceiver();
    }

    /** The thread is no longer merely woken: it is looking at the mailbox. */
    ghost method LookAsSender(thread: Tid)
      requires Offsets()
      modifies this`wokenSenders
      ensures Offsets() && Now() == old(Now()).(wokenSenders := old(wokenSenders) - {thread})
    {
      wokenSenders := wokenSenders - {thread};
    }

    ghost method LookAsReceiver(thread: Tid)
      requires Offsets()
      modifies this`wokenReceivers
      ensures Offsets() && Now() == old(Now()).(wokenReceivers := old(wokenReceivers) - {thread})
    {
      wokenReceivers := wokenReceivers - {thread};
    }

    /** _ipc_list_suspend on the senders. */
    method SuspendSender(thread: Tid)
      requires Offsets()
      modifies this`senders
      ensures Offsets()
      ensures Now() == old(Now()).(senders := Suspend(old(Now()).senders, thread, policy.prio, policy.flag))
    {
      senders := Suspend(senders, thread, policy.prio, policy.flag);
    }

    /** _ipc_list_suspend on the receivers. */
    method SuspendReceiver(thread: Tid)
      requires Offsets()
      modifies this`receivers
      ensures Offsets()
      ensures Now() == old(Now()).(receivers := Suspend(old(Now()).receivers, thread, policy.prio, policy.flag))
    {
      receivers := Suspend(receivers, thread, policy.prio, policy.flag);
    }

    /** _ipc_list_resume on the senders, if any. */
    method ResumeSender()
      requires Offsets()
      modifies this`senders, this`wokenSenders
      ensures Offsets() && Now() == WakeSender(old(Now()))
    {
      if senders != [] {
        wokenSenders := wokenSenders + {senders[0]};
        senders := senders[1..];
      }
    }

    /** Store at in_offset and advance it. */
    method Append(value: int) returns (r: Outcome)
      requires Offsets() && entry < size
      modifies this`entry, this`inOffset, msgPool
      ensures Offsets() && r == Ok && msgPool[old(inOffset)] == value
      ensures Now() == old(Now()).(mails := old(Now()).mails + [value])
    {
      ghost var pool := msgPool[..];
      RingAppend(pool, outOffset, entry, size, value);
      hide Ring;
      msgPool[inOffset] := value;
      assert msgPool[..] == pool[old(inOffset) := value];
      inOffset := inOffset + 1;
      if inOffset >= size { inOffset := 0; }
      if entry < ENTRY_MAX {
        entry := entry + 1;
      } else {
        return Full;
      }
      return Ok;
    }

    /** _ipc_list_resume on the receivers, if any. */
    method ResumeReceiver()
      requires Offsets()
      modifies this`receivers, this`wokenReceivers
      ensures Offsets() && Now() == WakeReceiver(old(Now()))
    {
      if receivers != [] {
        wokenReceivers := wokenReceivers + {receivers[0]};
        receivers := receivers[1..];
      }
    }

    /** rt_mb_urgent. */
    method UrgentMail(value: int) returns (r: Outcome)
      requires Valid()
      modifies this`entry, this`outOffset, this`receivers, this`wokenReceivers, msgPool
      ensures Valid()
      ensures (Now(), r) == Step(old(Now()), Urgent(value), policy)
      // room: stored first, and the first receiver is woken; full: refused
      ensures old(entry) < size ==>
        && r == Ok && Now().mails == [value] + old(Now()).mails && outOffset < size && msgPool[outOffset] == value
        && receivers == if old(receivers) == [] then [] else old(receivers)[1..]
      ensures old(entry) == size ==> r == Full && Now() == old(Now())
    {
      StepSafe(Now(), Urgent(value), policy);
      RingLength(msgPool[..], outOffset, entry, size);
      hide Ring, Safe;
      r := UrgentSection(value);
    }

    method UrgentSection(value: int) returns (r: Outcome)
      requires Offsets() && |Now().mails| == entry
      modifies this`entry, this`outOffset, this`receivers, this`wokenReceivers, msgPool
      ensures Offsets() && (Now(), r) == Step(old(Now()), Urgent(value), policy)
      ensures old(entry) < size ==> outOffset < size && msgPool[outOffset] == value
    {
      hide Ring;
      if entry == size { return Full; }
      Prepend(value);
      ResumeReceiver();
      return Ok;
    }

    /** Rewind out_offset and store there. */
    method Prepend(value: int)
      requires Offsets() && entry < size
      modifies this`entry, this`outOffset, msgPool
      ensures Offsets() && outOffset < size && msgPool[outOffset] == value
      ensures Now() == old(Now()).(mails := [value] + old(Now()).mails)
    {
      hide Ring;
      ghost var pool := msgPool[..];
      RingPrepend(pool, outOffset, entry, size, value);
      if outOffset > 0 {
        outOffset := outOffset - 1;
      } else {
        outOffset := size - 1;
      }
      msgPool[outOffset] := value;
      assert msgPool[..] == pool[outOffset := value];
      entry := entry + 1;
    }

    /** rt_mb_recv: one pass. */
    method RecvPass(thread: Tid, timeout: int) returns (r: Outcome)
      requires Valid() && Allowed(Now(), Recv(thread, timeout))
      modifies this`entry, this`outOffset, this`receivers, this`senders, this`wokenReceivers, this`wokenSenders
      ensures Valid()
      ensures (Now(), r) == Step(old(Now()), Recv(thread, timeout), policy)
      // mail: the oldest is handed over, and the first sender is woken
      ensures old(entry) > 0 ==>
        && old(outOffset) < msgPool.Length && r == Received(msgPool[old(outOffset)])
        && [msgPool[old(outOffset)]] + Now().mails == old(Now()).mails
        && senders == (if old(senders) == [] then [] else old(senders)[1..]) && receivers == old(receivers)
      // none: given up, or queued
      ensures old(entry) == 0 ==>
        && r == (if timeout == 0 then Timeout else Suspended) && Now().mails == [] && senders == old(senders)
        && receivers ==
           if timeout == 0 then old(receivers) else Suspend(old(receivers), thread, policy.prio, policy.flag)
    {
      StepSafe(Now(), Recv(thread, timeout), policy);
      RingLength(msgPool[..], outOffset, entry, size);
      if entry > 0 { RingTake(msgPool[..], outOffset, entry, size); }
      hide Ring, Safe, Suspend;
      r := RecvSection(thread, timeout);
    }

    method RecvSection(thread: Tid, timeout: int) returns (r: Outcome)
      requires Offsets() && |Now().mails| == entry
      modifies this`entry, this`outOffset, this`receivers, this`senders, this`wokenReceivers, this`wokenSenders
      ensures Offsets() && (Now(), r) == Step(old(Now()), Recv(thread, timeout), policy)
    {
      hide Ring;
      LookAsReceiver(thread);
      if entry == 0 {
        if timeout == 0 { return Timeout; }
        SuspendReceiver(thread);
        return Suspended;
      }
      var value := Take();
      ResumeSender();
      return Received(value);
    }

    /** Read at out_offset and advance it. */
    method Take() returns (value: int)
      requires Offsets() && entry > 0
      modifies this`entry, this`outOffset
      ensures Offsets()
      ensures old(Now()).mails != [] && value == old(Now()).mails[0]
      ensures Now() == old(Now()).(mails := old(Now()).mails[1..])
    {
      RingTake(msgPool[..], outOffset, entry, size);
      hide Ring;
      value := msgPool[outOffset];
      outOffset := outOffset + 1;
      if outOffset >= size { outOffset := 0; }
      if entry > 0 { entry := entry - 1; }
    }

    /** A waiter's timer. */
    method ExpireWaiter(thread: Tid)
      requires Valid() && Allowed(Now(), Expire(thread))
      modifies this`receivers, this`senders
      ensures Valid() && Now() == Step(old(Now()), Expire(thread), policy).0
    {
      StepSafe(Now(), Expire(thread), policy);
      receivers := Without(receivers, thread);
      senders := Without(senders, thread);
    }

    /** rt_mb_control(RT_IPC_CMD_RESET). */
    method Control()
      requires Valid()
      modifies this`entry, this`inOffset, this`outOffset, this`receivers, this`senders
      ensures Valid() && Now() == Step(old(Now()), Reset, policy).0
      ensures Now().mails == [] && entry == 0 && receivers == senders == []
    {
      StepSafe(Now(), Reset, policy);
      receivers, senders := [], [];
      entry, inOffset, outOffset := 0, 0, 0;
    }
  }
}
