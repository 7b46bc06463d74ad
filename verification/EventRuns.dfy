/** Whole runs of the event group: what a suspended rt_event_recv returns, whatever happens between the wake-up and the
    moment its thread runs again. */
module EventRuns {
  import opened Sequences
  import opened WaitQueue
  import opened Waiting
  import opened EventGroup

  // ----- what every waiter is promised -----

  /** What a suspended thread asked for. */
  datatype Request = Request(want: Bits, option: Flags)

  /** `asked`: the latest request of each thread that was suspended; `due`: what the call of each woken thread owes it. */
  datatype Book = Book(asked: map<Tid, Request>, due: map<Tid, Reply>)

  ghost predicate Entered(q: seq<Tid>, asked: map<Tid, Request>)
  {
    forall t :: t in q ==> t in asked
  }

  /** A send seen from the waiters: in queue order, each one that is satisfied by what the others before it have left is
      due the bits that it asked for. */
  function Dues(bits: Bits, q: seq<Tid>, asked: map<Tid, Request>, due: map<Tid, Reply>): map<Tid, Reply>
    requires Entered(q, asked)
    decreases |q|
  {
    if q == [] then due
    else
      var r := asked[q[0]];
      if Satisfied(bits, r.want, r.option) then
        Dues(Cleared(bits, r.want, r.option), q[1..], asked, due[q[0] := Reply(Ok, bits * r.want)])
      else Dues(bits, q[1..], asked, due)
  }

  function AllDue(q: seq<Tid>, reply: Reply, due: map<Tid, Reply>): map<Tid, Reply>
    decreases |q|
  {
    if q == [] then due else AllDue(q[1..], reply, due[q[0] := reply])
  }

  /** The book after a call, kept without looking at what the object stores in the threads. */
  ghost function Note(s: State, b: Book, c: Call, p: Policy): Book
    requires Safe(s) && Allowed(s, c) && Entered(s.waiters, b.asked)
  {
    match c
    case SendCall(sent) => if sent == {} then b else b.(due := Dues(s.bits + sent, s.waiters, b.asked, b.due))
    case RecvCall(t, want, option, timeout) =>
      if Step(s, c, p).1.outcome == Suspended then b.(asked := b.asked[t := Request(want, option)]) else b
    case PickupCall(t) => b
    case ExpireCall(t) => b.(due := b.due[t := Reply(Timeout, {})])
    case ResetCall => b.(due := AllDue(s.waiters, Reply(Error, {}), b.due))
  }

  // ----- the object keeps the book -----

  ghost predicate AskedAs(s: State, b: Book, t: Tid)
  {
    t in b.asked && t in s.eventSet && t in s.info && b.asked[t] == Request(s.eventSet[t], s.info[t])
  }

  ghost predicate DueAs(eventSet: map<Tid, Bits>, errors: map<Tid, Outcome>, due: map<Tid, Reply>, t: Tid)
  {
    && t in due && t in errors && t in eventSet
    && due[t] == Reply(errors[t], if errors[t] == Ok then eventSet[t] else {})
  }

  ghost predicate Kept(s: State, b: Book)
  {
    && (forall t :: t in s.waiters ==> AskedAs(s, b, t))
    && (forall t :: t in s.woken ==> DueAs(s.eventSet, s.errors, b.due, t))
  }

  ghost predicate SameRequests(q: seq<Tid>, eventSet: map<Tid, Bits>, info: map<Tid, Flags>, asked: map<Tid, Request>)
  {
    forall t :: t in q ==> t in eventSet && t in info && t in asked && asked[t] == Request(eventSet[t], info[t])
  }

  /** What the scan of rt_event_send stores in the threads is what they are due. */
  lemma {:induction false} ScanPays(bits: Bits, q: seq<Tid>, eventSet: map<Tid, Bits>, info: map<Tid, Flags>,
                                    asked: map<Tid, Request>, due: map<Tid, Reply>)
    requires NoDup(q) && SameRequests(q, eventSet, info, asked)
    ensures var r, d := Replay(bits, q, eventSet, info), Dues(bits, q, asked, due);
      && (forall t :: t in r.resumed ==> t in q && t in d && t in r.eventSet && d[t] == Reply(Ok, r.eventSet[t]))
      && (forall t :: t in due && t !in r.resumed ==> t in d && d[t] == due[t])
    decreases |q|
  {
    if q != [] {
      var h, rest := q[0], q[1..];
      HeadOf(q);
      hide Satisfied, Cleared;
      if Satisfied(bits, eventSet[h], info[h]) {
        var bits', es := Cleared(bits, eventSet[h], info[h]), eventSet[h := bits * eventSet[h]];
        var due' := due[h := Reply(Ok, bits * eventSet[h])];
        ScanPays(bits', rest, es, info, asked, due');
        ReplayParts(bits', rest, es, info);
      } else {
        ScanPays(bits, rest, eventSet, info, asked, due);
      }
    }
  }

  lemma {:induction false} AllDueFacts(q: seq<Tid>, reply: Reply, due: map<Tid, Reply>)
    requires NoDup(q)
    ensures var d := AllDue(q, reply, due);
      && (forall t :: t in q ==> t in d && d[t] == reply)
      && (forall t :: t in due && t !in q ==> t in d && d[t] == due[t])
    decreases |q|
  {
    if q != [] {
      HeadOf(q);
      AllDueFacts(q[1..], reply, due[q[0] := reply]);
    }
  }

  lemma SendKept(s: State, b: Book, sent: Bits, p: Policy)
    requires Safe(s) && Kept(s, b) && sent != {}
    ensures Entered(s.waiters, b.asked) && Kept(Step(s, SendCall(sent), p).0, Note(s, b, SendCall(sent), p))
  {
    var bits, s' := s.bits + sent, Step(s, SendCall(sent), p).0;
    forall t | t in s.waiters ensures t in b.asked { assert AskedAs(s, b, t); }
    forall t | t in s.waiters ensures b.asked[t] == Request(s.eventSet[t], s.info[t]) { assert AskedAs(s, b, t); }
    var b' := Note(s, b, SendCall(sent), p);
    ScanPays(bits, s.waiters, s.eventSet, s.info, b.asked, b.due);
    ReplayParts(bits, s.waiters, s.eventSet, s.info);
    ResumedNotLeft(bits, s.waiters, s.eventSet, s.info);
    forall t | t in s'.waiters ensures AskedAs(s', b', t) { assert AskedAs(s, b, t); }
    forall t | t in s'.woken ensures DueAs(s'.eventSet, s'.errors, b'.due, t) {
      if t in s.woken {
        assert DueAs(s.eventSet, s.errors, b.due, t);
        assert t !in s.waiters;
      }
    }
  }

  lemma StepKept(s: State, b: Book, c: Call, p: Policy)
    requires Safe(s) && Kept(s, b) && Allowed(s, c)
    ensures Entered(s.waiters, b.asked) && Kept(Step(s, c, p).0, Note(s, b, c, p))
  {
    forall t | t in s.waiters ensures t in b.asked { assert AskedAs(s, b, t); }
    match c
    case SendCall(sent) => if sent != {} { SendKept(s, b, sent, p); }
    case RecvCall(_, _, _, _) => RecvKept(s, b, c, p);
    case PickupCall(_) =>
    case ExpireCall(_) => ExpireKept(s, b, c, p);
    case ResetCall => ResetKept(s, b, p);
  }

  lemma RecvKept(s: State, b: Book, c: Call, p: Policy)
    requires Safe(s) && Kept(s, b) && c.RecvCall? && Allowed(s, c) && Entered(s.waiters, b.asked)
    ensures Kept(Step(s, c, p).0, Note(s, b, c, p))
  {
    var s', b' := Step(s, c, p).0, Note(s, b, c, p);
    SuspendMembers(s.waiters, c.thread, p.prio, p.flag);
    hide Satisfied, Cleared, Suspend;
    forall t | t in s'.waiters ensures AskedAs(s', b', t) { assert t in s.waiters ==> AskedAs(s, b, t); }
    forall t | t in s'.woken ensures DueAs(s'.eventSet, s'.errors, b'.due, t) {
      assert DueAs(s.eventSet, s.errors, b.due, t);
    }
  }

  lemma ExpireKept(s: State, b: Book, c: Call, p: Policy)
    requires Safe(s) && Kept(s, b) && c.ExpireCall? && Allowed(s, c) && Entered(s.waiters, b.asked)
    ensures Kept(Step(s, c, p).0, Note(s, b, c, p))
  {
    var s', b' := Step(s, c, p).0, Note(s, b, c, p);
    WithoutMembers(s.waiters, c.thread);
    forall t | t in s'.waiters ensures AskedAs(s', b', t) { assert AskedAs(s, b, t); }
    forall t | t in s'.woken ensures DueAs(s'.eventSet, s'.errors, b'.due, t) {
      assert t != c.thread ==> DueAs(s.eventSet, s.errors, b.due, t);
    }
  }

  lemma ResetKept(s: State, b: Book, p: Policy)
    requires Safe(s) && Kept(s, b) && Entered(s.waiters, b.asked)
    ensures Kept(Step(s, ResetCall, p).0, Note(s, b, ResetCall, p))
  {
    var s', b' := Step(s, ResetCall, p).0, Note(s, b, ResetCall, p);
    MarkedFacts(s.errors, s.waiters);
    AllDueFacts(s.waiters, Reply(Error, {}), b.due);
    forall t | t in s'.woken ensures DueAs(s'.eventSet, s'.errors, b'.due, t) {
      if t !in s.waiters { assert DueAs(s.eventSet, s.errors, b.due, t); }
    }
  }

  // ----- whole runs -----

  ghost predicate IsRun(s: State, calls: seq<Call>, p: Policy)
    requires Safe(s)
    decreases |calls|
  {
    calls != [] ==>
      Allowed(s, calls[0]) && (StepSafe(s, calls[0], p); IsRun(Step(s, calls[0], p).0, calls[1..], p))
  }

  ghost function After(s: State, calls: seq<Call>, p: Policy): (s': State)
    requires Safe(s) && IsRun(s, calls, p)
    ensures Safe(s')
    decreases |calls|
  {
    if calls == [] then s
    else
      StepSafe(s, calls[0], p);
      After(Step(s, calls[0], p).0, calls[1..], p)
  }

  ghost function BookAfter(s: State, b: Book, calls: seq<Call>, p: Policy): (b': Book)
    requires Safe(s) && Kept(s, b) && IsRun(s, calls, p)
    ensures Kept(After(s, calls, p), b')
    decreases |calls|
  {
    if calls == [] then b
    else
      StepSafe(s, calls[0], p);
      StepKept(s, b, calls[0], p);
      BookAfter(Step(s, calls[0], p).0, Note(s, b, calls[0], p), calls[1..], p)
  }

  /** Over every run, and so whatever other threads send, receive, time out or reset between a wake-up and the moment the
      woken thread runs again: its rt_event_recv returns what it was due when it was woken. */
  lemma PickedUpAsPromised(calls: seq<Call>, p: Policy, t: Tid)
    requires IsRun(Initial(), calls, p) && t in After(Initial(), calls, p).woken
    ensures var s, b := After(Initial(), calls, p), BookAfter(Initial(), Book(map[], map[]), calls, p);
      t in b.due && Step(s, PickupCall(t), p).1 == b.due[t]
  {
    var s, b := After(Initial(), calls, p), BookAfter(Initial(), Book(map[], map[]), calls, p);
    assert Kept(s, b);
    assert DueAs(s.eventSet, s.errors, b.due, t);
  }

  /** Over every run nobody waits for bits that are set: a thread that waits for all of its bits misses one, and one that
      waits for any has none. */
  lemma NobodyStranded(calls: seq<Call>, p: Policy, t: Tid)
    requires IsRun(Initial(), calls, p) && t in After(Initial(), calls, p).waiters
    ensures var bits, b := After(Initial(), calls, p).bits, BookAfter(Initial(), Book(map[], map[]), calls, p);
      && t in b.asked
      && (b.asked[t].option.all ==> exists x :: x in b.asked[t].want && x !in bits)
      && (!b.asked[t].option.all ==> forall x :: x in b.asked[t].want ==> x !in bits)
  {
    var s, b := After(Initial(), calls, p), BookAfter(Initial(), Book(map[], map[]), calls, p);
    assert AskedAs(s, b, t);
    WaitersMissBits(s);
  }

  // ----- one send, one waiter -----

  /** The calls leave a woken thread alone: none of them is its pick-up.  (It can make no other.) */
  ghost predicate WithoutPickup(calls: seq<Call>, t: Tid)
  {
    forall i :: 0 <= i < |calls| ==> calls[i] != PickupCall(t)
  }

  lemma OtherStep(s: State, c: Call, p: Policy, t: Tid)
    requires Safe(s) && Allowed(s, c) && t in s.woken && c != PickupCall(t)
    ensures var s' := Step(s, c, p).0;
      && t in s'.woken && t in s.errors && t in s'.errors && s'.errors[t] == s.errors[t]
      && t in s.eventSet && t in s'.eventSet && s'.eventSet[t] == s.eventSet[t]
  {
    assert t !in s.waiters;
    match c
    case SendCall(sent) => if sent != {} { ReplayParts(s.bits + sent, s.waiters, s.eventSet, s.info); }
    case ResetCall => MarkedFacts(s.errors, s.waiters);
    case RecvCall(_, _, _, _) =>
    case PickupCall(_) =>
    case ExpireCall(_) =>
  }

  lemma {:induction false} OtherSteps(s: State, calls: seq<Call>, p: Policy, t: Tid)
    requires Safe(s) && IsRun(s, calls, p) && t in s.woken && WithoutPickup(calls, t)
    ensures var s' := After(s, calls, p);
      && t in s'.woken && t in s.errors && t in s'.errors && s'.errors[t] == s.errors[t]
      && t in s.eventSet && t in s'.eventSet && s'.eventSet[t] == s.eventSet[t]
    decreases |calls|
  {
    if calls != [] {
      assert calls[0] != PickupCall(t);
      StepSafe(s, calls[0], p);
      OtherStep(s, calls[0], p, t);
      var rest := calls[1..];
      forall i | 0 <= i < |rest| ensures rest[i] != PickupCall(t) { assert calls[i + 1] != PickupCall(t); }
      OtherSteps(Step(s, calls[0], p).0, rest, p, t);
    }
  }

  /** The waiter at place `k` of the queue when something is sent: if what those before it leave satisfies it, its call
      returns RT_EOK and exactly the bits it wants of that, however long the others go on before it runs; otherwise it
      goes on waiting.  `s1` is the state after the send, safe by StepSafe. */
  lemma SendDelivers(s: State, sent: Bits, k: nat, s1: State, calls: seq<Call>, p: Policy)
    requires Safe(s) && sent != {} && k < |s.waiters| && s1 == Step(s, SendCall(sent), p).0
    requires Safe(s1) && IsRun(s1, calls, p) && WithoutPickup(calls, s.waiters[k])
    ensures Requests(s.waiters[..k], s.eventSet, s.info) && s.waiters[k] in s.eventSet && s.waiters[k] in s.info
    ensures var t := s.waiters[k];
      var want, b := s.eventSet[t], Replay(s.bits + sent, s.waiters[..k], s.eventSet, s.info).bits;
      if (if s.info[t].all then forall x :: x in want ==> x in b else exists x :: x in want && x in b) then
        t in After(s1, calls, p).woken
        && Step(After(s1, calls, p), PickupCall(t), p).1 == Reply(Ok, b * s.eventSet[t])
      else t in s1.waiters
  {
    var t := s.waiters[k];
    ReplayDelivers(s.bits + sent, s.waiters, s.eventSet, s.info, k);
    SatisfiedBits(Replay(s.bits + sent, s.waiters[..k], s.eventSet, s.info).bits, s.eventSet[t], s.info[t]);
    hide Satisfied;
    var b := Replay(s.bits + sent, s.waiters[..k], s.eventSet, s.info).bits;
    if Satisfied(b, s.eventSet[t], s.info[t]) {
      assert t in s1.woken && s1.errors[t] == Ok && s1.eventSet[t] == b * s.eventSet[t];
      OtherSteps(s1, calls, p, t);
    }
  }
}
