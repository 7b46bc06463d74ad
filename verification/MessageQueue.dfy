/** The message queue of ipc.c: fixed slots that travel between a free list and a queue, and whose bodies are
    copied outside the interrupt lock while other threads run.

    Each section with interrupts disabled is one step, and so is each copy between two such sections. */
module MessageQueue {
  import opened Sequences
  import opened Slots
  import opened WaitQueue
  import opened Waiting
  import Deque
  import Words

  type Message = seq<int>    // the bytes of one slot

  const ENTRY_MAX := 0xffff    // RT_MQ_ENTRY_MAX
  const TWO16 := 0x1_0000
  const LINK := 4              // sizeof(struct rt_mq_message)

  // RT_EOK, -RT_ERROR, -RT_EFULL, -RT_ETIMEOUT.  Slot: a section that ends with a slot in the caller's hands;
  // Suspended: the call has not returned yet.
  datatype Outcome = Ok | Slot(slot: nat) | Error | Full | Timeout | Suspended

  // ----- the queue and its slots -----

  /** `filling` and `draining`: slots in the hands of senders and receivers that are in the middle of a copy. */
  datatype State = State(body: seq<Message>, free: seq<nat>, queue: seq<nat>, filling: set<nat>, draining: set<nat>,
                         receivers: seq<Tid>, senders: seq<Tid>, wokenReceivers: set<Tid>, wokenSenders: set<Tid>)

  datatype Call =
    | SendAlloc(thread: Tid, timeout: int)      // one pass of rt_mq_send_wait's wait loop, and the slot it takes
    | UrgentAlloc                               // rt_mq_urgent's first section
    | Fill(slot: nat, buffer: Message)          // the copy of either
    | SendLink(slot: nat)                       // rt_mq_send_wait's last section
    | UrgentLink(slot: nat)                     // rt_mq_urgent's last section
    | RecvPop(thread: Tid, timeout: int)        // one pass of rt_mq_recv's wait loop, and the message it takes
    | RecvFree(slot: nat)                       // its last section
    | Expire(thread: Tid)                       // a waiter's timer
    | Reset                                     // rt_mq_control(RT_IPC_CMD_RESET)

  ghost predicate Allowed(s: State, c: Call)
  {
    match c
    case SendAlloc(t, timeout) => t !in s.receivers && t !in s.senders && t !in s.wokenReceivers
    case RecvPop(t, timeout) => t !in s.receivers && t !in s.senders && t !in s.wokenSenders
    case Fill(k, buffer) => k in s.filling && k < |s.body| && |buffer| <= |s.body[k]|
    case SendLink(k) => k in s.filling
    case UrgentLink(k) => k in s.filling
    case RecvFree(k) => k in s.draining
    case UrgentAlloc => true
    case Expire(t) => t in s.receivers || t in s.senders
    case Reset => true
  }

  function WakeReceiver(s: State): State
  {
    if s.receivers == [] then s
    else s.(receivers := s.receivers[1..], wokenReceivers := s.wokenReceivers + {s.receivers[0]})
  }

  function WakeSender(s: State): State
  {
    if s.senders == [] then s
    else s.(senders := s.senders[1..], wokenSenders := s.wokenSenders + {s.senders[0]})
  }

  /** rt_memcpy into a slot: what lies beyond the buffer stays. */
  function Over(before: Message, buffer: Message): Message
    requires |buffer| <= |before|
  {
    buffer + before[|buffer|..]
  }

  function Alloc(s: State): State
    requires s.free != []
  {
    s.(free := s.free[1..], filling := s.filling + {s.free[0]})
  }

  ghost function Step(s: State, c: Call, p: Policy): (State, Outcome)
    requires Allowed(s, c)
  {
    match c
    case SendAlloc(t, timeout) =>
      var s0 := s.(wokenSenders := s.wokenSenders - {t});
      if s.free != [] then (Alloc(s0), Slot(s.free[0]))
      else if timeout == 0 then (s0, Full)
      else (s0.(senders := Suspend(s.senders, t, p.prio, p.flag)), Suspended)
    case UrgentAlloc => if s.free != [] then (Alloc(s), Slot(s.free[0])) else (s, Full)
    case Fill(k, buffer) => (s.(body := s.body[k := Over(s.body[k], buffer)]), Ok)
    case SendLink(k) => (WakeReceiver(s.(queue := s.queue + [k], filling := s.filling - {k})), Ok)
    case UrgentLink(k) => (WakeReceiver(s.(queue := [k] + s.queue, filling := s.filling - {k})), Ok)
    case RecvPop(t, timeout) =>
      var s0 := s.(wokenReceivers := s.wokenReceivers - {t});
      if s.queue != [] then (s0.(queue := s.queue[1..], draining := s.draining + {s.queue[0]}), Slot(s.queue[0]))
      else if timeout == 0 then (s0, Timeout)
      else (s0.(receivers := Suspend(s.receivers, t, p.prio, p.flag)), Suspended)
    case RecvFree(k) => (WakeSender(s.(free := [k] + s.free, draining := s.draining - {k})), Ok)
    case Expire(t) => (s.(receivers := Without(s.receivers, t), senders := Without(s.senders, t)), Timeout)
    case Reset => (s.(queue := [], free := Pushed(s.free, s.queue), receivers := [], senders := []), Ok)
  }

  // ----- safety -----

  ghost predicate Sized(body: seq<Message>, size: nat)
  {
    forall k :: 0 <= k < |body| ==> |body[k]| == size
  }

  /** Each slot is free, queued, or in the middle of one copy. */
  ghost predicate Placed(s: State)
  {
    s.filling !! s.draining && Whole(s.free, s.queue, s.filling + s.draining, |s.body|)
  }

  ghost predicate Safe(s: State, size: nat)
  {
    && Sized(s.body, size)
    && Placed(s)
    && Queues(s.receivers, s.wokenReceivers) && Queues(s.senders, s.wokenSenders)
    && Covered(|s.queue|, s.receivers, s.wokenReceivers)
    && Covered(|s.free|, s.senders, s.wokenSenders)
  }

  lemma StepSafe(s: State, c: Call, p: Policy, size: nat)
    requires Safe(s, size) && Allowed(s, c)
    ensures Safe(Step(s, c, p).0, size) && |Step(s, c, p).0.body| == |s.body|
  {
    var s' := Step(s, c, p).0;
    StepPlaced(s, c, p);
    match c
    case SendAlloc(t, timeout) =>
      LookCovers(|s.free|, s.senders, s.wokenSenders, t);
      if s.free == [] && timeout != 0 { SuspendQueues(s.senders, s.wokenSenders, t, p); }
    case RecvPop(t, timeout) =>
      LookCovers(|s.queue|, s.receivers, s.wokenReceivers, t);
      if s.queue == [] && timeout != 0 { SuspendQueues(s.receivers, s.wokenReceivers, t, p); }
    case SendLink(k) =>
      if s.receivers != [] { WakeCovers(|s.queue|, s.receivers, s.wokenReceivers); }
    case UrgentLink(k) =>
      if s.receivers != [] { WakeCovers(|s.queue|, s.receivers, s.wokenReceivers); }
    case RecvFree(k) =>
      if s.senders != [] { WakeCovers(|s.free|, s.senders, s.wokenSenders); }
    case UrgentAlloc =>
    case Fill(k, buffer) =>
    case Expire(t) =>
      WithoutMembers(s.receivers, t);
      WithoutMembers(s.senders, t);
    case Reset =>
  }

  lemma StepPlaced(s: State, c: Call, p: Policy)
    requires Placed(s) && Allowed(s, c)
    ensures Placed(Step(s, c, p).0)
  {
    match c
    case SendAlloc(_, _) => SendAllocPlaced(s, c, p);
    case UrgentAlloc => if s.free != [] { AllocPlaced(s); }
    case RecvPop(_, _) => RecvPopPlaced(s, c, p);
    case SendLink(k) =>
      LinkPlaced(s, k);
      WakePlaced(s.(queue := s.queue + [k], filling := s.filling - {k}));
    case UrgentLink(k) =>
      LinkPlaced(s, k);
      WakePlaced(s.(queue := [k] + s.queue, filling := s.filling - {k}));
    case RecvFree(k) =>
      FreePlaced(s, k);
      WakePlaced(s.(free := [k] + s.free, draining := s.draining - {k}));
    case Reset => PushedWhole(s.free, s.queue, s.filling + s.draining, |s.body|);
    case Fill(_, _) =>
    case Expire(_) =>
  }

  lemma WakePlaced(s: State)
    requires Placed(s)
    ensures Placed(WakeReceiver(s)) && Placed(WakeSender(s))
  {
  }

  lemma SendAllocPlaced(s: State, c: Call, p: Policy)
    requires Placed(s) && Allowed(s, c) && c.SendAlloc?
    ensures Placed(Step(s, c, p).0)
  {
    if s.free != [] { AllocPlaced(s.(wokenSenders := s.wokenSenders - {c.thread})); }
  }

  lemma RecvPopPlaced(s: State, c: Call, p: Policy)
    requires Placed(s) && Allowed(s, c) && c.RecvPop?
    ensures Placed(Step(s, c, p).0)
  {
    if s.queue != [] { PopPlaced(s.(wokenReceivers := s.wokenReceivers - {c.thread})); }
  }

  lemma AllocPlaced(s: State)
    requires Placed(s) && s.free != []
    ensures Placed(Alloc(s))
  {
    TakeFree(s.free, s.queue, s.filling + s.draining, |s.body|);
    assert s.filling + {s.free[0]} + s.draining == s.filling + s.draining + {s.free[0]};
  }

  lemma PopPlaced(s: State)
    requires Placed(s) && s.queue != []
    ensures Placed(s.(queue := s.queue[1..], draining := s.draining + {s.queue[0]}))
  {
    TakeQueued(s.free, s.queue, s.filling + s.draining, |s.body|);
    assert s.filling + (s.draining + {s.queue[0]}) == s.filling + s.draining + {s.queue[0]};
  }

  lemma LinkPlaced(s: State, k: nat)
    requires Placed(s) && k in s.filling
    ensures Placed(s.(queue := s.queue + [k], filling := s.filling - {k}))
    ensures Placed(s.(queue := [k] + s.queue, filling := s.filling - {k}))
  {
    PutBack(s.free, s.queue, s.filling + s.draining, |s.body|, k);
    assert s.filling - {k} + s.draining == s.filling + s.draining - {k};
  }

  lemma FreePlaced(s: State, k: nat)
    requires Placed(s) && k in s.draining
    ensures Placed(s.(free := [k] + s.free, draining := s.draining - {k}))
  {
    PutBack(s.free, s.queue, s.filling + s.draining, |s.body|, k);
    assert s.filling + (s.draining - {k}) == s.filling + s.draining - {k};
  }

  // ----- whole runs -----

  ghost predicate IsRun(s: State, calls: seq<Call>, p: Policy)
    decreases |calls|
  {
    calls != [] ==> Allowed(s, calls[0]) && IsRun(Step(s, calls[0], p).0, calls[1..], p)
  }

  ghost function After(s: State, calls: seq<Call>, p: Policy): State
    requires IsRun(s, calls, p)
    decreases |calls|
  {
    if calls == [] then s else After(Step(s, calls[0], p).0, calls[1..], p)
  }

  /** After rt_mq_init. */
  function Initial(body: seq<Message>): State
  {
    State(body, Countdown(|body|), [], {}, {}, [], [], {}, {})
  }

  lemma {:induction false} RunSafe(s: State, calls: seq<Call>, p: Policy, size: nat)
    requires Safe(s, size) && IsRun(s, calls, p)
    ensures Safe(After(s, calls, p), size) && |After(s, calls, p).body| == |s.body|
    decreases |calls|
  {
    if calls != [] {
      StepSafe(s, calls[0], p, size);
      RunSafe(Step(s, calls[0], p).0, calls[1..], p, size);
    }
  }

  /** Over every interleaving: each slot is free, queued or in the middle of one copy, the three counts make up
      max_msgs, and nobody waits for what is there once the woken threads have looked. */
  lemma SlotsConserved(body: seq<Message>, size: nat, calls: seq<Call>, p: Policy)
    requires Sized(body, size) && IsRun(Initial(body), calls, p)
    ensures var s := After(Initial(body), calls, p);
      && s.filling !! s.draining
      && |s.free| + |s.queue| + |s.filling| + |s.draining| == |body|
      && (forall x: nat :: x < |body| ==> OnePlace(x, s.free, s.queue, s.filling + s.draining))
      && (s.receivers != [] && s.wokenReceivers == {} ==> s.queue == [])
      && (s.senders != [] && s.wokenSenders == {} ==> s.free == [])
  {
    CountdownWhole(|body|);
    RunSafe(Initial(body), calls, p, size);
  }

  // ----- the order of the messages -----

  ghost predicate InBounds(body: seq<Message>, q: seq<nat>)
  {
    forall i :: 0 <= i < |q| ==> q[i] < |body|
  }

  /** The contents of the slots along `q`. */
  ghost function Bodies(body: seq<Message>, q: seq<nat>): seq<Message>
    requires InBounds(body, q)
  {
    seq(|q|, i requires 0 <= i < |q| => body[q[i]])
  }

  ghost function Messages(s: State): seq<Message>
    requires InBounds(s.body, s.queue)
  {
    Bodies(s.body, s.queue)
  }

  lemma SafeInBounds(s: State, size: nat)
    requires Safe(s, size)
    ensures InBounds(s.body, s.queue)
    ensures forall k :: k in s.filling + s.draining ==> k < |s.body| && k !in s.queue
  {
    forall i | 0 <= i < |s.queue| ensures s.queue[i] < |s.body| {
      assert InUse(s.queue[i], s.free, s.queue, s.filling + s.draining);
    }
    forall k | k in s.filling + s.draining ensures k < |s.body| && k !in s.queue {
      assert InUse(k, s.free, s.queue, s.filling + s.draining);
      assert OnePlace(k, s.free, s.queue, s.filling + s.draining);
    }
  }

  lemma BodiesAppend(body: seq<Message>, q: seq<nat>, k: nat)
    requires InBounds(body, q) && k < |body|
    ensures InBounds(body, q + [k]) && Bodies(body, q + [k]) == Bodies(body, q) + [body[k]]
    ensures InBounds(body, [k] + q) && Bodies(body, [k] + q) == [body[k]] + Bodies(body, q)
  {
  }

  lemma BodiesTail(body: seq<Message>, q: seq<nat>)
    requires InBounds(body, q) && q != []
    ensures InBounds(body, q[1..]) && Bodies(body, q) == [body[q[0]]] + Bodies(body, q[1..])
  {
  }

  lemma BodiesSame(body: seq<Message>, body': seq<Message>, q: seq<nat>)
    requires InBounds(body, q) && InBounds(body', q)
    requires forall i :: 0 <= i < |q| ==> body'[q[i]] == body[q[i]]
    ensures Bodies(body', q) == Bodies(body, q)
  {
  }

  /** What a step does to the queue as a double-ended queue, when slot `k` stands for `tag[k]`. */
  ghost function OpOf(s: State, c: Call, tag: seq<Message>): seq<Deque.Op<Message>>
    requires Allowed(s, c) && InBounds(tag, s.queue) && forall k :: k in s.filling ==> k < |tag|
  {
    match c
    case SendLink(k) => [Deque.Back(tag[k])]
    case UrgentLink(k) => [Deque.Front(tag[k])]
    case RecvPop(_, _) => if s.queue != [] then [Deque.Out(tag[s.queue[0]])] else []
    case Reset => [Deque.Clear]
    case _ => []
  }

  /** The tags of the slots that are queued or being linked in stay. */
  ghost predicate Steady(s: State, c: Call, tag: seq<Message>, tag': seq<Message>)
  {
    && |tag| == |tag'| == |s.body|
    && forall k: nat :: k < |tag| && (k in s.queue || ((c.SendLink? || c.UrgentLink?) && k == c.slot)) ==>
         tag'[k] == tag[k]
  }

  lemma StepLegal(s: State, c: Call, p: Policy, size: nat, tag: seq<Message>, tag': seq<Message>)
    requires Safe(s, size) && Allowed(s, c) && Steady(s, c, tag, tag')
    ensures InBounds(tag, s.queue) && (forall k :: k in s.filling ==> k < |tag|)
    ensures InBounds(tag', Step(s, c, p).0.queue)
    ensures Deque.Legal(Bodies(tag, s.queue), OpOf(s, c, tag), Bodies(tag', Step(s, c, p).0.queue))
  {
    SafeInBounds(s, size);
    SameBodies(tag, tag', s.queue);
    var s', ops := Step(s, c, p).0, OpOf(s, c, tag);
    if ops != [] { assert ops[1..] == []; }
    if c.SendLink? || c.UrgentLink? {
      BodiesAppend(tag', s.queue, c.slot);
    } else if c.RecvPop? && s.queue != [] {
      BodiesTail(tag', s.queue);
    }
  }

  lemma SameBodies(tag: seq<Message>, tag': seq<Message>, q: seq<nat>)
    requires |tag| == |tag'| && InBounds(tag, q)
    requires forall k: nat :: k < |tag| && k in q ==> tag'[k] == tag[k]
    ensures InBounds(tag', q) && Bodies(tag', q) == Bodies(tag, q)
  {
    forall i | 0 <= i < |q| ensures tag'[q[i]] == tag[q[i]] { assert q[i] in q; }
    BodiesSame(tag, tag', q);
  }

  /** What a run does to the contents of the queue. */
  ghost function OpsBy(s: State, calls: seq<Call>, p: Policy, size: nat): seq<Deque.Op<Message>>
    requires Safe(s, size) && IsRun(s, calls, p)
    decreases |calls|
  {
    if calls == [] then []
    else
      SafeInBounds(s, size);
      StepSafe(s, calls[0], p, size);
      OpOf(s, calls[0], s.body) + OpsBy(Step(s, calls[0], p).0, calls[1..], p, size)
  }

  lemma BodySteady(s: State, c: Call, p: Policy, size: nat)
    requires Safe(s, size) && Allowed(s, c)
    ensures Steady(s, c, s.body, Step(s, c, p).0.body)
  {
    SafeInBounds(s, size);
  }

  lemma {:induction false} RunLegal(s: State, calls: seq<Call>, p: Policy, size: nat)
    requires Safe(s, size) && IsRun(s, calls, p)
    ensures InBounds(s.body, s.queue) && InBounds(After(s, calls, p).body, After(s, calls, p).queue)
    ensures Deque.Legal(Messages(s), OpsBy(s, calls, p, size), Messages(After(s, calls, p)))
    decreases |calls|
  {
    SafeInBounds(s, size);
    if calls != [] {
      var c, rest := calls[0], calls[1..];
      var s' := Step(s, c, p).0;
      StepSafe(s, c, p, size);
      BodySteady(s, c, p, size);
      StepLegal(s, c, p, size, s.body, s'.body);
      RunLegal(s', rest, p, size);
      Deque.LegalAppend(Messages(s), OpOf(s, c, s.body), Messages(s'), OpsBy(s', rest, p, size),
                        Messages(After(s', rest, p)));
    }
  }

  /** Over every interleaving the contents go through the queue as through a double-ended queue, whatever is copied in
      between: each message taken out is the first one there, and every one linked in is taken out, dropped by a reset,
      or still there.  Urgent messages and reset aside, messages leave in the order in which they were linked in. */
  lemma FirstInFirstOut(s: State, calls: seq<Call>, p: Policy, size: nat)
    requires Safe(s, size) && IsRun(s, calls, p)
    ensures InBounds(s.body, s.queue) && InBounds(After(s, calls, p).body, After(s, calls, p).queue)
    ensures var m, ops, m' := Messages(s), OpsBy(s, calls, p, size), Messages(After(s, calls, p));
      && Deque.Legal(m, ops, m')
      && (Deque.NoUrgentOrReset(ops) ==> m + Deque.Sent(ops) == Deque.Received(ops) + m')
      && forall x: Message :: Deque.Balanced(m, ops, m', x)
  {
    RunLegal(s, calls, p, size);
    var m, ops, m' := Messages(s), OpsBy(s, calls, p, size), Messages(After(s, calls, p));
    if Deque.NoUrgentOrReset(ops) { Deque.FirstInFirstOut(m, ops, m'); }
    forall x: Message ensures Deque.Balanced(m, ops, m', x) { Deque.NothingLost(m, ops, m', x); }
  }

  // ----- from the sender's buffer to the receiver's -----

  /** `sent[k]`: the buffer that the sender who last took slot `k` copied into it (empty before the copy). */
  ghost function Note(s: State, c: Call, sent: seq<Message>): seq<Message>
    requires Allowed(s, c) && |sent| == |s.body| && (s.free != [] ==> s.free[0] < |sent|)
  {
    match c
    case Fill(k, buffer) => sent[k := buffer]
    case SendAlloc(_, _) => if s.free != [] then sent[s.free[0] := []] else sent
    case UrgentAlloc => if s.free != [] then sent[s.free[0] := []] else sent
    case _ => sent
  }

  /** Each slot's first bytes are what its sender copied into it. */
  ghost predicate Noted(body: seq<Message>, sent: seq<Message>)
  {
    |sent| == |body| && forall k :: 0 <= k < |sent| ==> sent[k] <= body[k]
  }

  lemma StepNoted(s: State, c: Call, p: Policy, size: nat, sent: seq<Message>)
    requires Safe(s, size) && Allowed(s, c) && Noted(s.body, sent)
    ensures s.free != [] ==> s.free[0] < |sent|
    ensures Noted(Step(s, c, p).0.body, Note(s, c, sent)) && Steady(s, c, sent, Note(s, c, sent))
  {
    SafeInBounds(s, size);
    if s.free != [] { TakeFree(s.free, s.queue, s.filling + s.draining, |s.body|); FreeInBounds(s); }
  }

  lemma FreeInBounds(s: State)
    requires Placed(s) && s.free != []
    ensures s.free[0] < |s.body| && s.free[0] !in s.queue && s.free[0] !in s.filling
  {
    assert InUse(s.free[0], s.free, s.queue, s.filling + s.draining);
    assert OnePlace(s.free[0], s.free, s.queue, s.filling + s.draining);
  }

  ghost function SentAfter(s: State, calls: seq<Call>, p: Policy, size: nat, sent: seq<Message>): seq<Message>
    requires Safe(s, size) && IsRun(s, calls, p) && Noted(s.body, sent)
    decreases |calls|
  {
    if calls == [] then sent
    else
      StepSafe(s, calls[0], p, size);
      StepNoted(s, calls[0], p, size, sent);
      SentAfter(Step(s, calls[0], p).0, calls[1..], p, size, Note(s, calls[0], sent))
  }

  /** What a run does to the queue of the senders' buffers. */
  ghost function SentOps(s: State, calls: seq<Call>, p: Policy, size: nat, sent: seq<Message>): seq<Deque.Op<Message>>
    requires Safe(s, size) && IsRun(s, calls, p) && Noted(s.body, sent)
    decreases |calls|
  {
    if calls == [] then []
    else
      SafeInBounds(s, size);
      StepSafe(s, calls[0], p, size);
      StepNoted(s, calls[0], p, size, sent);
      OpOf(s, calls[0], sent) + SentOps(Step(s, calls[0], p).0, calls[1..], p, size, Note(s, calls[0], sent))
  }

  /** The same operation, on a message that begins with the buffer. */
  ghost predicate Carries(buffer: Deque.Op<Message>, content: Deque.Op<Message>)
  {
    match buffer
    case Back(b) => content.Back? && b <= content.value
    case Front(b) => content.Front? && b <= content.value
    case Out(b) => content.Out? && b <= content.value
    case Clear => content.Clear?
  }

  ghost predicate AllCarry(a: seq<Deque.Op<Message>>, b: seq<Deque.Op<Message>>)
  {
    |a| == |b| && forall i :: 0 <= i < |a| ==> Carries(a[i], b[i])
  }

  lemma AllCarryAppend(a: seq<Deque.Op<Message>>, b: seq<Deque.Op<Message>>, c: seq<Deque.Op<Message>>,
                       d: seq<Deque.Op<Message>>)
    requires AllCarry(a, b) && AllCarry(c, d)
    ensures AllCarry(a + c, b + d)
  {
  }

  lemma OpCarries(s: State, c: Call, sent: seq<Message>)
    requires Allowed(s, c) && Noted(s.body, sent) && InBounds(s.body, s.queue) && forall k :: k in s.filling ==> k < |s.body|
    ensures InBounds(sent, s.queue) && AllCarry(OpOf(s, c, sent), OpOf(s, c, s.body))
  {
  }

  /** Senders and receivers: over every interleaving the buffers that rt_mq_send and rt_mq_urgent were given go through
      a double-ended queue in step with the messages, and each message taken out begins with the buffer that is then
      first. */
  lemma {:induction false} DeliveredAsSent(s: State, calls: seq<Call>, p: Policy, size: nat, sent: seq<Message>)
    requires Safe(s, size) && IsRun(s, calls, p) && Noted(s.body, sent)
    ensures var t, sent' := After(s, calls, p), SentAfter(s, calls, p, size, sent);
      && Noted(t.body, sent') && InBounds(sent, s.queue) && InBounds(sent', t.queue)
      && Deque.Legal(Bodies(sent, s.queue), SentOps(s, calls, p, size, sent), Bodies(sent', t.queue))
    ensures AllCarry(SentOps(s, calls, p, size, sent), OpsBy(s, calls, p, size))
    decreases |calls|
  {
    SafeInBounds(s, size);
    if calls != [] {
      var c, rest := calls[0], calls[1..];
      StepSafe(s, c, p, size);
      StepNoted(s, c, p, size, sent);
      OpCarries(s, c, sent);
      hide Safe, Noted, InBounds, AllCarry, Deque.Legal;
      var s', sent1 := Step(s, c, p).0, Note(s, c, sent);
      StepLegal(s, c, p, size, sent, sent1);
      DeliveredAsSent(s', rest, p, size, sent1);
      AllCarryAppend(OpOf(s, c, sent), OpOf(s, c, s.body), SentOps(s', rest, p, size, sent1), OpsBy(s', rest, p, size));
      var t, sent' := After(s', rest, p), SentAfter(s', rest, p, size, sent1);
      Deque.LegalAppend(Bodies(sent, s.queue), OpOf(s, c, sent), Bodies(sent1, s'.queue),
                        SentOps(s', rest, p, size, sent1), Bodies(sent', t.queue));
    }
  }

  // ----- copies outside the lock -----

  /** None of the calls is by the thread that holds slot `k`. */
  ghost predicate ByOthers(calls: seq<Call>, k: nat)
  {
    forall i :: 0 <= i < |calls| ==>
      (calls[i].Fill? || calls[i].SendLink? || calls[i].UrgentLink? || calls[i].RecvFree?) ==> calls[i].slot != k
  }

  /** Whatever the other threads do, a slot in a thread's hands stays there and keeps its contents. */
  lemma {:induction false} HeldSlotUntouched(s: State, calls: seq<Call>, p: Policy, size: nat, k: nat)
    requires Safe(s, size) && IsRun(s, calls, p) && ByOthers(calls, k) && k in s.filling + s.draining
    ensures var s' := After(s, calls, p);
      && k < |s.body| == |s'.body| && s'.body[k] == s.body[k]
      && (k in s.filling <==> k in s'.filling) && (k in s.draining <==> k in s'.draining)
    decreases |calls|
  {
    SafeInBounds(s, size);
    if calls != [] {
      StepSafe(s, calls[0], p, size);
      assert ByOthers(calls[1..], k);
      OtherStep(s, calls[0], p, size, k);
      HeldSlotUntouched(Step(s, calls[0], p).0, calls[1..], p, size, k);
    }
  }

  lemma OtherStep(s: State, c: Call, p: Policy, size: nat, k: nat)
    requires Safe(s, size) && Allowed(s, c) && ByOthers([c], k) && k in s.filling + s.draining
    ensures var s' := Step(s, c, p).0;
      && k < |s.body| == |s'.body| && s'.body[k] == s.body[k]
      && (k in s.filling <==> k in s'.filling) && (k in s.draining <==> k in s'.draining)
  {
    SafeInBounds(s, size);
    assert !(c.Fill? || c.SendLink? || c.UrgentLink? || c.RecvFree?) || c.slot != k by { assert [c][0] == c; }
    match c
    case SendAlloc(_, _) => if s.free != [] { TakeFree(s.free, s.queue, s.filling + s.draining, |s.body|); }
    case UrgentAlloc => if s.free != [] { TakeFree(s.free, s.queue, s.filling + s.draining, |s.body|); }
    case RecvPop(_, _) => if s.queue != [] { TakeQueued(s.free, s.queue, s.filling + s.draining, |s.body|); }
    case _ =>
  }

  /** A message is queued as it was sent: the copy into a slot, then anything other threads do, then the link. */
  lemma SentAsWritten(s: State, k: nat, buffer: Message, calls: seq<Call>, p: Policy, size: nat)
    requires Safe(s, size) && Allowed(s, Fill(k, buffer)) && ByOthers(calls, k)
    requires IsRun(Step(s, Fill(k, buffer), p).0, calls, p)
    ensures var s' := After(Step(s, Fill(k, buffer), p).0, calls, p);
      && Allowed(s', SendLink(k))
      && var done := Step(s', SendLink(k), p).0;
        && InBounds(done.body, done.queue) && done.queue != []
        && buffer <= Messages(done)[|done.queue| - 1]
  {
    StepSafe(s, Fill(k, buffer), p, size);
    var s1 := Step(s, Fill(k, buffer), p).0;
    HeldSlotUntouched(s1, calls, p, size, k);
    RunSafe(s1, calls, p, size);
    StepSafe(After(s1, calls, p), SendLink(k), p, size);
    SafeInBounds(Step(After(s1, calls, p), SendLink(k), p).0, size);
  }

  /** A receiver that takes a message off the queue still finds it whole when it copies it, whatever other threads
      do meanwhile. */
  lemma ReadAsQueued(s: State, t: Tid, timeout: int, calls: seq<Call>, p: Policy, size: nat)
    requires Safe(s, size) && Allowed(s, RecvPop(t, timeout)) && s.queue != []
    requires IsRun(Step(s, RecvPop(t, timeout), p).0, calls, p) && ByOthers(calls, s.queue[0])
    ensures var s' := After(Step(s, RecvPop(t, timeout), p).0, calls, p);
      && InBounds(s.body, s.queue) && Step(s, RecvPop(t, timeout), p).1 == Slot(s.queue[0])
      && s.queue[0] in s'.draining && s.queue[0] < |s'.body|
      && s'.body[s.queue[0]] == Messages(s)[0]
      && forall sent :: Noted(s.body, sent) ==> InBounds(sent, s.queue) && Bodies(sent, s.queue)[0] <= s'.body[s.queue[0]]
  {
    SafeInBounds(s, size);
    StepSafe(s, RecvPop(t, timeout), p, size);
    HeldSlotUntouched(Step(s, RecvPop(t, timeout), p).0, calls, p, size, s.queue[0]);
  }

  // ----- the queue as it lies in memory -----

  function Last(q: seq<nat>): int
  {
    if q == [] then NULL else q[|q| - 1]
  }

  class RtMessageQueue {
    const msgSize: nat
    const maxMsgs: nat
    const next: array<int>            // the `next` words of the slots
    const body: array<Message>        // the bytes behind them
    var head: int                     // msg_queue_head
    var tail: int                     // msg_queue_tail
    var free: int                     // msg_queue_free
    var entry: nat
    var receivers: seq<Tid>           // parent.suspend_thread
    var senders: seq<Tid>             // suspend_sender_thread
    const policy: Policy

    ghost var freeList: seq<nat>
    ghost var queue: seq<nat>
    ghost var filling: set<nat>
    ghost var draining: set<nat>
    ghost var wokenReceivers: set<Tid>
    ghost var wokenSenders: set<Tid>

    ghost function Now(): State
      reads this, body
    {
      State(body[..], freeList, queue, filling, draining, receivers, senders, wokenReceivers, wokenSenders)
    }

    /** The links spell out the two lists. */
    ghost predicate Linked()
      reads this, next
    {
      && next.Length == body.Length == maxMsgs < TWO16
      && Chain(next[..], free, freeList)
      && Chain(next[..], head, queue)
      && tail == Last(queue) && entry == |queue|
    }

    ghost predicate Valid()
      reads this, next, body
    {
      Linked() && Safe(Now(), msgSize)
    }

    /** Nobody else's step changes what these slots hold. */
    twostate predicate Kept(slots: set<nat>)
      reads next, body
    {
      forall k :: k in slots && k < next.Length && k < body.Length ==> next[k] == old(next[k]) && body[k] == old(body[k])
    }

    /** rt_mq_init.  Both sizes are stored in 16 bits. */
    constructor (msgSize: nat, poolSize: nat, policy: Policy)
      ensures Valid() && Now() == Initial(body[..])
      ensures this.msgSize == Words.Align4(msgSize) % TWO16
      ensures maxMsgs == poolSize / (this.msgSize + LINK) % TWO16 && maxMsgs * (this.msgSize + LINK) <= poolSize
    {
      var size := Words.Align4(msgSize) % TWO16;
      var count := poolSize / (size + LINK) % TWO16;
      this.msgSize, maxMsgs, this.policy := size, count, policy;
      next := new int[count];
      body := new Message[count](_ => seq(size, _ => 0));
      head, tail, free, entry := NULL, NULL, NULL, 0;
      receivers, senders := [], [];
      freeList, queue, filling, draining, wokenReceivers, wokenSenders := [], [], {}, {}, {}, {};
      new;
      FitsPool(poolSize, size + LINK, count);
      assert Linked();
      hide Chain, NoDup;
      var temp := 0;
      while temp < maxMsgs
        invariant 0 <= temp <= maxMsgs
        invariant Linked() && freeList == Countdown(temp) && queue == []
        invariant filling == draining == {} && receivers == senders == [] && wokenReceivers == wokenSenders == {}
        modifies this`free, this`freeList, next
      {
        CountdownWhole(temp);
        PushFree(temp);
        temp := temp + 1;
      }
      CountdownWhole(maxMsgs);
    }

    /** rt_mq_send_wait up to its copy: the test of the size, then one pass of the wait loop. */
    method AllocPass(thread: Tid, size: nat, timeout: int) returns (r: Outcome)
      requires Valid() && Allowed(Now(), SendAlloc(thread, timeout))
      modifies this`free, this`senders, this`freeList, this`filling, this`wokenSenders
      ensures Valid() && Kept(old(filling + draining))
      ensures if size > msgSize then r == Error && Now() == old(Now())
              else (Now(), r) == Step(old(Now()), SendAlloc(thread, timeout), policy)
      // a free slot: taken, whatever the timeout; none: refused, or queued
      ensures size <= msgSize && old(freeList) != [] ==>
        && old(free) >= 0 && r == Slot(old(free)) && old(free) in filling && senders == old(senders)
        && [r.slot] + freeList == old(freeList)
      ensures size <= msgSize && old(freeList) == [] ==>
        && old(free) == NULL && r == (if timeout == 0 then Full else Suspended) && freeList == []
        && filling == old(filling)
        && senders == if timeout == 0 then old(senders) else Suspend(old(senders), thread, policy.prio, policy.flag)
    {
      if size > msgSize { return Error; }
      StepSafe(Now(), SendAlloc(thread, timeout), policy, msgSize);
      r := SlotPass(thread, timeout);
    }

    /** One pass, from the test of msg_queue_free to the next rt_hw_interrupt_enable. */
    method SlotPass(thread: Tid, timeout: int) returns (r: Outcome)
      requires Linked() && Allowed(Now(), SendAlloc(thread, timeout))
      modifies this`free, this`senders, this`freeList, this`filling, this`wokenSenders
      ensures Linked() && (Now(), r) == Step(old(Now()), SendAlloc(thread, timeout), policy)
    {
      StopWaiting(thread);
      if free == NULL {
        if timeout == 0 { return Full; }
        senders := Suspend(senders, thread, policy.prio, policy.flag);
        return Suspended;
      }
      var msg := TakeFreeSlot();
      return Slot(msg);
    }

    /** The thread is no longer merely woken: it is looking at the queue. */
    ghost method StopWaiting(thread: Tid)
      modifies this`wokenSenders
      ensures Now() == old(Now()).(wokenSenders := old(wokenSenders) - {thread})
    {
      wokenSenders := wokenSenders - {thread};
    }

    /** Move the free-list pointer. */
    method TakeFreeSlot() returns (msg: nat)
      requires Linked() && free != NULL
      modifies this`free, this`freeList, this`filling
      ensures Linked() && old(freeList) != [] && msg == old(freeList)[0] && Now() == Alloc(old(Now()))
    {
      msg := free;
      free := next[msg];
      filling := filling + {msg};
      freeList := freeList[1..];
    }

    /** rt_mq_urgent: its first section. */
    method UrgentAllocPass(size: nat) returns (r: Outcome)
      requires Valid()
      modifies this`free, this`freeList, this`filling
      ensures Valid() && Kept(old(filling + draining))
      ensures if size > msgSize then r == Error && Now() == old(Now())
              else (Now(), r) == Step(old(Now()), UrgentAlloc, policy)
      ensures size <= msgSize && old(freeList) != [] ==>
        old(free) >= 0 && r == Slot(old(free)) && old(free) in filling && [r.slot] + freeList == old(freeList)
      ensures size <= msgSize && old(freeList) == [] ==> old(free) == NULL && r == Full && Now() == old(Now())
    {
      if size > msgSize { return Error; }
      StepSafe(Now(), UrgentAlloc, policy, msgSize);
      if free == NULL { return Full; }
      var msg := TakeFreeSlot();
      return Slot(msg);
    }

    /** The copy into a slot, outside the lock.  Only rt_mq_send_wait also clears the link first. */
    method Copy(msg: nat, buffer: Message, clear: bool)
      requires Valid() && Allowed(Now(), Fill(msg, buffer))
      modifies next, body
      ensures Valid() && Kept(filling + draining - {msg}) && Now() == Step(old(Now()), Fill(msg, buffer), policy).0
      ensures clear ==> next[msg] == NULL
      // the buffer, and behind it what was there; no other slot
      ensures buffer <= body[msg] && body[msg][|buffer|..] == old(body[msg])[|buffer|..]
      ensures forall k :: 0 <= k < body.Length && k != msg ==> body[k] == old(body[k])
    {
      StepSafe(Now(), Fill(msg, buffer), policy, msgSize);
      SafeInBounds(Now(), msgSize);
      NotListed(Now(), msg);
      ghost var links, bytes := next[..], body[..];
      if clear {
        ChainElsewhere(links, free, freeList, msg, NULL);
        ChainElsewhere(links, head, queue, msg, NULL);
        next[msg] := NULL;
        assert next[..] == links[msg := NULL];
      }
      body[msg] := Over(body[msg], buffer);
      assert body[..] == bytes[msg := Over(bytes[msg], buffer)];
    }

    /** rt_mq_send_wait: its last section. */
    method Link(msg: nat) returns (r: Outcome)
      requires Valid() && Allowed(Now(), SendLink(msg)) && msg < next.Length && next[msg] == NULL
      modifies this`head, this`tail, this`entry, this`receivers, this`queue, this`filling, this`wokenReceivers, next
      ensures Valid() && Kept(filling + draining) && (Now(), r) == Step(old(Now()), SendLink(msg), policy)
      ensures r == Ok && queue == old(queue) + [msg] && body[..] == old(body[..])
      ensures receivers == if old(receivers) == [] then [] else old(receivers)[1..]
    {
      StepSafe(Now(), SendLink(msg), policy, msgSize);
      LinkFacts(Now(), msg, msgSize);
      r := LinkSection(msg);
    }

    method LinkSection(msg: nat) returns (r: Outcome)
      requires Linked() && Allowed(Now(), SendLink(msg)) && msg < next.Length && next[msg] == NULL
      requires msg !in freeList && msg !in queue && |queue| < maxMsgs && NoDup(queue)
      requires (queue != [] ==> Last(queue) !in freeList) && forall k :: k in filling + draining ==> k !in queue
      modifies this`head, this`tail, this`entry, this`receivers, this`queue, this`filling, this`wokenReceivers, next
      ensures Linked() && Kept(filling + draining) && (Now(), r) == Step(old(Now()), SendLink(msg), policy)
    {
      hide Chain, NoDup, Last;
      ghost var end := Step(Now(), SendLink(msg), policy).0;
      r := Append(msg);
      if r == Full { return; }
      ResumeReceiver(msg);
      assert Now() == end;
    }

    /** Link a slot behind the tail, and count it. */
    method Append(msg: nat) returns (r: Outcome)
      requires Linked() && NoDup(queue) && |queue| < maxMsgs
      requires msg < maxMsgs && msg !in freeList && msg !in queue && next[msg] == NULL
      requires queue != [] ==> Last(queue) !in freeList
      modifies this`head, this`tail, this`entry, this`queue, next
      ensures Linked() && Now() == old(Now()).(queue := old(queue) + [msg]) && r == Ok
      ensures forall k :: 0 <= k < next.Length && k !in old(queue) ==> next[k] == old(next[k])
    {
      ghost var links := next[..];
      if tail != NULL {
        ChainAppend(links, head, queue, msg);
        ChainElsewhere(links, free, freeList, Last(queue), msg);
        next[tail] := msg;
        assert next[..] == links[Last(queue) := msg];
      } else {
        assert [msg][1..] == [];
      }
      tail := msg;
      if head == NULL { head := msg; }
      if entry < ENTRY_MAX {
        entry := entry + 1;
      } else {
        return Full;
      }
      queue := queue + [msg];
      return Ok;
    }

    /** rt_mq_urgent: its last section. */
    method LinkFirst(msg: nat) returns (r: Outcome)
      requires Valid() && Allowed(Now(), UrgentLink(msg))
      modifies this`head, this`tail, this`entry, this`receivers, this`queue, this`filling, this`wokenReceivers, next
      ensures Valid() && Kept(filling + draining) && (Now(), r) == Step(old(Now()), UrgentLink(msg), policy)
      ensures r == Ok && queue == [msg] + old(queue) && body[..] == old(body[..])
      ensures receivers == if old(receivers) == [] then [] else old(receivers)[1..]
    {
      StepSafe(Now(), UrgentLink(msg), policy, msgSize);
      LinkFacts(Now(), msg, msgSize);
      r := UrgentLinkSection(msg);
    }

    method UrgentLinkSection(msg: nat) returns (r: Outcome)
      requires Linked() && Allowed(Now(), UrgentLink(msg)) && msg < maxMsgs
      requires msg !in freeList && msg !in queue && |queue| < maxMsgs && filling !! draining
      modifies this`head, this`tail, this`entry, this`receivers, this`queue, this`filling, this`wokenReceivers, next
      ensures Linked() && Kept(filling + draining) && (Now(), r) == Step(old(Now()), UrgentLink(msg), policy)
    {
      hide Chain, Last;
      ghost var end := Step(Now(), UrgentLink(msg), policy).0;
      r := Prepend(msg);
      if r == Full { return; }
      ResumeReceiver(msg);
      assert Now() == end;
    }

    /** Link a slot before the head, and count it. */
    method Prepend(msg: nat) returns (r: Outcome)
      requires Linked() && |queue| < maxMsgs && msg < maxMsgs && msg !in freeList && msg !in queue
      modifies this`head, this`tail, this`entry, this`queue, next
      ensures Linked() && Now() == old(Now()).(queue := [msg] + old(queue)) && r == Ok
      ensures forall k :: 0 <= k < next.Length && k != msg ==> next[k] == old(next[k])
    {
      ghost var links := next[..];
      ChainPush(links, head, queue, msg);
      ChainElsewhere(links, free, freeList, msg, head);
      next[msg] := head;
      assert next[..] == links[msg := head];
      head := msg;
      if tail == NULL { tail := msg; }
      if entry < ENTRY_MAX {
        entry := entry + 1;
      } else {
        return Full;
      }
      queue := [msg] + queue;
      return Ok;
    }

    /** The slot is out of the sender's hands; _ipc_list_resume on the receivers, if any. */
    method ResumeReceiver(ghost msg: nat)
      modifies this`receivers, this`filling, this`wokenReceivers
      ensures Now() == WakeReceiver(old(Now()).(filling := old(filling) - {msg}))
    {
      filling := filling - {msg};
      if receivers != [] {
        wokenReceivers := wokenReceivers + {receivers[0]};
        receivers := receivers[1..];
      }
    }

    /** rt_mq_recv: one pass. */
    method PopPass(thread: Tid, timeout: int) returns (r: Outcome)
      requires Valid() && Allowed(Now(), RecvPop(thread, timeout))
      modifies this`head, this`tail, this`entry, this`receivers, this`queue, this`draining, this`wokenReceivers
      ensures Valid() && Kept(old(filling + draining))
      ensures (Now(), r) == Step(old(Now()), RecvPop(thread, timeout), policy)
      // a message: the first, whatever the timeout; none: given up, or queued
      ensures old(queue) != [] ==>
        && old(head) >= 0 && r == Slot(old(head)) && old(head) in draining && receivers == old(receivers)
        && [r.slot] + queue == old(queue)
      ensures old(queue) == [] ==>
        && old(entry) == 0 && r == (if timeout == 0 then Timeout else Suspended) && queue == []
        && draining == old(draining)
        && receivers ==
           if timeout == 0 then old(receivers) else Suspend(old(receivers), thread, policy.prio, policy.flag)
    {
      StepSafe(Now(), RecvPop(thread, timeout), policy, msgSize);
      r := PopSection(thread, timeout);
    }

    method PopSection(thread: Tid, timeout: int) returns (r: Outcome)
      requires Linked() && Allowed(Now(), RecvPop(thread, timeout)) && NoDup(queue)
      modifies this`head, this`tail, this`entry, this`receivers, this`queue, this`draining, this`wokenReceivers
      ensures Linked() && (Now(), r) == Step(old(Now()), RecvPop(thread, timeout), policy)
    {
      hide Chain, NoDup, Last;
      ghost var end := Step(Now(), RecvPop(thread, timeout), policy).0;
      if entry == 0 {
        r := WaitForMessage(thread, timeout);
        return;
      }
      var msg := Pop();
      Hold(thread, msg);
      assert Now() == end;
      return Slot(msg);
    }

    /** An empty queue: _ipc_list_suspend, unless the caller does not wait. */
    method WaitForMessage(thread: Tid, timeout: int) returns (r: Outcome)
      requires Allowed(Now(), RecvPop(thread, timeout)) && queue == []
      modifies this`receivers, this`wokenReceivers
      ensures (Now(), r) == Step(old(Now()), RecvPop(thread, timeout), policy)
    {
      wokenReceivers := wokenReceivers - {thread};
      if timeout == 0 { return Timeout; }
      receivers := Suspend(receivers, thread, policy.prio, policy.flag);
      return Suspended;
    }

    /** The thread found a message and will copy it. */
    ghost method Hold(thread: Tid, msg: nat)
      modifies this`draining, this`wokenReceivers
      ensures Now() == old(Now()).(draining := old(draining) + {msg}, wokenReceivers := old(wokenReceivers) - {thread})
    {
      draining, wokenReceivers := draining + {msg}, wokenReceivers - {thread};
    }

    /** Move the head on; the last message takes the tail with it. */
    method Pop() returns (msg: nat)
      requires Linked() && queue != [] && NoDup(queue)
      modifies this`head, this`tail, this`entry, this`queue
      ensures Linked() && msg == old(queue)[0] && Now() == old(Now()).(queue := old(queue)[1..])
    {
      msg := head;
      head := next[msg];
      HeadOf(queue);
      if tail == msg { tail := NULL; }
      if entry > 0 { entry := entry - 1; }
      queue := queue[1..];
    }

    /** The copy out of a slot, outside the lock.  `sent` is what the sender copied in (see ReadAsQueued): the receiver
        gets all of it if its own buffer is large enough, and otherwise as much as fits. */
    method Read(msg: nat, size: nat, ghost sent: Message) returns (buffer: Message)
      requires Valid() && msg in draining && msg < body.Length && sent <= body[msg]
      ensures |buffer| == if size > msgSize then msgSize else size
      ensures if |sent| <= |buffer| then sent <= buffer else buffer <= sent
    {
      SafeInBounds(Now(), msgSize);
      buffer := body[msg][..if size > msgSize then msgSize else size];
    }

    /** rt_mq_recv: its last section. */
    method Free(msg: nat) returns (r: Outcome)
      requires Valid() && Allowed(Now(), RecvFree(msg))
      modifies this`free, this`freeList, this`senders, this`draining, this`wokenSenders, next
      ensures Valid() && Kept(filling + draining) && (Now(), r) == Step(old(Now()), RecvFree(msg), policy)
      ensures r == Ok && free == msg && freeList == [msg] + old(freeList) && queue == old(queue)
      ensures senders == if old(senders) == [] then [] else old(senders)[1..]
    {
      StepSafe(Now(), RecvFree(msg), policy, msgSize);
      NotListed(Now(), msg);
      r := FreeSection(msg);
    }

    method FreeSection(msg: nat) returns (r: Outcome)
      requires Linked() && Allowed(Now(), RecvFree(msg)) && msg < maxMsgs && msg !in freeList && msg !in queue
      requires filling !! draining
      modifies this`free, this`freeList, this`senders, this`draining, this`wokenSenders, next
      ensures Linked() && Kept(filling + draining) && (Now(), r) == Step(old(Now()), RecvFree(msg), policy)
    {
      hide Chain, Last;
      ghost var end := Step(Now(), RecvFree(msg), policy).0;
      PushFree(msg);
      ResumeSender(msg);
      assert Now() == end;
      return Ok;
    }

    /** The slot is out of the receiver's hands; _ipc_list_resume on the senders, if any. */
    method ResumeSender(ghost msg: nat)
      modifies this`senders, this`draining, this`wokenSenders
      ensures Now() == WakeSender(old(Now()).(draining := old(draining) - {msg}))
    {
      draining := draining - {msg};
      if senders != [] {
        wokenSenders := wokenSenders + {senders[0]};
        senders := senders[1..];
      }
    }

    method PushFree(msg: nat)
      requires Linked() && msg < maxMsgs && msg !in freeList && msg !in queue
      modifies this`free, this`freeList, next
      ensures Linked() && Now() == old(Now()).(free := [msg] + old(freeList))
      ensures forall k :: 0 <= k < next.Length && k != msg ==> next[k] == old(next[k])
    {
      ghost var links := next[..];
      ChainPush(links, free, freeList, msg);
      ChainElsewhere(links, head, queue, msg, free);
      next[msg] := free;
      assert next[..] == links[msg := free];
      free := msg;
      freeList := [msg] + freeList;
    }

    /** A waiter's timer. */
    method ExpireWaiter(thread: Tid)
      requires Valid() && Allowed(Now(), Expire(thread))
      modifies this`receivers, this`senders
      ensures Valid() && Now() == Step(old(Now()), Expire(thread), policy).0
    {
      StepSafe(Now(), Expire(thread), policy, msgSize);
      receivers, senders := Without(receivers, thread), Without(senders, thread);
    }

    /** rt_mq_control(RT_IPC_CMD_RESET). */
    method Control()
      requires Valid()
      modifies this`head, this`tail, this`free, this`entry, this`receivers, this`senders, this`freeList, this`queue, next
      ensures Valid() && Kept(filling + draining) && Now() == Step(old(Now()), Reset, policy).0
      ensures queue == [] && entry == 0 && receivers == senders == [] && filling == old(filling) && draining == old(draining)
      ensures forall k :: k in freeList <==> k in old(freeList) || k in old(queue)
    {
      PushedMembers(freeList, queue);
      StepSafe(Now(), Reset, policy, msgSize);
      ResetSection();
    }

    method ResetSection()
      requires Linked() && Whole(freeList, queue, filling + draining, maxMsgs)
      modifies this`head, this`tail, this`free, this`entry, this`receivers, this`senders, this`freeList, this`queue, next
      ensures Linked() && Kept(filling + draining) && Now() == Step(old(Now()), Reset, policy).0
    {
      hide Chain, Whole;
      ghost var end := Step(Now(), Reset, policy).0;
      receivers, senders := [], [];
      ReleaseAll();
      entry := 0;
      assert Now() == end;
    }

    /** The loop of the reset: pop each message and push its slot on the free list. */
    method ReleaseAll()
      requires Linked() && Whole(freeList, queue, filling + draining, maxMsgs)
      modifies this`head, this`tail, this`free, this`entry, this`freeList, this`queue, next
      ensures Linked() && queue == [] && freeList == Pushed(old(freeList), old(queue)) && Kept(filling + draining)
    {
      ghost var held := filling + draining;
      while head != NULL
        invariant Linked() && Whole(freeList, queue, held, maxMsgs) && Kept(held)
        invariant Pushed(freeList, queue) == Pushed(old(freeList), old(queue))
        decreases |queue|
      {
        MoveOne(freeList, queue, held, maxMsgs);
        var msg := Pop();
        PushFree(msg);
      }
    }
  }

  lemma FitsPool(pool: nat, slot: nat, count: nat)
    requires slot > 0 && count == pool / slot % TWO16
    ensures count * slot <= pool
  {
    var all := pool / slot;
    assert count <= all;
    Scale(count, all, slot);
  }

  /** A slot in the middle of a copy is on neither list. */
  lemma NotListed(s: State, k: nat)
    requires Placed(s) && k in s.filling + s.draining
    ensures k < |s.body| && k !in s.free && k !in s.queue && |s.queue| < |s.body|
  {
    PutBack(s.free, s.queue, s.filling + s.draining, |s.body|, k);
  }

  lemma LinkFacts(s: State, k: nat, size: nat)
    requires Safe(s, size) && k in s.filling
    ensures k < |s.body| && k !in s.free && k !in s.queue && |s.queue| < |s.body| && NoDup(s.queue)
    ensures s.queue != [] ==> Last(s.queue) !in s.free
    ensures forall x :: x in s.filling + s.draining ==> x !in s.queue
  {
    NotListed(s, k);
    SafeInBounds(s, size);
    if s.queue != [] {
      assert InUse(Last(s.queue), s.free, s.queue, s.filling + s.draining);
      assert OnePlace(Last(s.queue), s.free, s.queue, s.filling + s.draining);
    }
  }
}
