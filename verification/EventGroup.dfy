/** Event groups (ipc.c:1423-1714): bits that threads wait for, all of them or any of them. */
module EventGroup {
  import opened Sequences
  import opened WaitQueue
  import opened Waiting

  /** A 32-bit event mask, as the set of its bit numbers: `&` is `*`, `|` is `+`, `& ~` is `-`, 0 is {}. */
  type Bits = set<nat>

  /** RT_EVENT_FLAG_AND, RT_EVENT_FLAG_OR and RT_EVENT_FLAG_CLEAR; AND wins when both are given. */
  datatype Flags = Flags(all: bool, any: bool, clear: bool)

  // RT_EOK, -RT_ERROR, -RT_ETIMEOUT, -RT_EINVAL; Suspended means the call has not returned yet
  datatype Outcome = Ok | Error | Timeout | Invalid | Suspended

  /** RT_ASSERT in rt_event_recv: AND or OR must be chosen. */
  predicate Chosen(option: Flags) { option.all || option.any }

  // ----- receiving without blocking -----

  /** What rt_event_recv checks. */
  predicate Satisfied(bits: Bits, want: Bits, option: Flags)
  {
    if option.all then bits * want == want else if option.any then bits * want != {} else false
  }

  /** The bits left once a satisfied rt_event_recv has returned `bits & want`. */
  function Cleared(bits: Bits, want: Bits, option: Flags): Bits
  {
    if option.clear then bits - want else bits
  }

  // ----- sending, as a replay of receives -----

  datatype Served = Served(bits: Bits, left: seq<Tid>, resumed: seq<Tid>, eventSet: map<Tid, Bits>)

  /** Let each waiter, in queue order, try a non-blocking receive. */
  function Replay(bits: Bits, q: seq<Tid>, eventSet: map<Tid, Bits>, info: map<Tid, Flags>): Served
    requires forall t :: t in q ==> t in eventSet && t in info
  {
    if q == [] then Served(bits, [], [], eventSet)
    else
      var t := q[0];
      if Satisfied(bits, eventSet[t], info[t]) then
        var r := Replay(Cleared(bits, eventSet[t], info[t]), q[1..], eventSet[t := bits * eventSet[t]], info);
        r.(resumed := [t] + r.resumed)
      else
        var r := Replay(bits, q[1..], eventSet, info);
        r.(left := [t] + r.left)
  }

  /** Bit by bit: AND asks for every bit, OR for one, and CLEAR takes what was asked for and nothing else. */
  lemma SatisfiedBits(bits: Bits, want: Bits, option: Flags)
    requires Chosen(option)
    ensures option.all ==> (Satisfied(bits, want, option) <==> forall b :: b in want ==> b in bits)
    ensures !option.all ==> (Satisfied(bits, want, option) <==> exists b :: b in want && b in bits)
    ensures forall b :: b in Cleared(bits, want, option) <==> b in bits && !(option.clear && b in want)
  {
    if forall b :: b in want ==> b in bits { assert bits * want == want; }
    if bits * want == want { assert forall b :: b in want ==> b in bits * want; }
    if exists b :: b in want && b in bits {
      var b :| b in want && b in bits;
      assert b in bits * want;
    }
  }

  /** Fewer bits satisfy fewer waiters. */
  lemma SatisfiedMonotone(few: Bits, many: Bits, want: Bits, option: Flags)
    requires few <= many && Satisfied(few, want, option)
    ensures Satisfied(many, want, option)
  {
    assert few * want <= many * want;
  }

  ghost predicate Quiet(bits: Bits, q: seq<Tid>, eventSet: map<Tid, Bits>, info: map<Tid, Flags>)
  {
    forall t :: t in q ==> t in eventSet && t in info && !Satisfied(bits, eventSet[t], info[t])
  }

  /** `q` is `left` and `resumed` together, each thread once. */
  ghost predicate Parted(q: seq<Tid>, left: seq<Tid>, resumed: seq<Tid>)
  {
    && NoDup(left) && |left| + |resumed| == |q|
    && (forall t :: t in q <==> t in left || t in resumed)
  }

  /** A replay loses nobody, and waiters left behind still want what they wanted. */
  lemma {:induction false} ReplayParts(bits: Bits, q: seq<Tid>, eventSet: map<Tid, Bits>, info: map<Tid, Flags>)
    requires NoDup(q) && forall t :: t in q ==> t in eventSet && t in info
    ensures var r := Replay(bits, q, eventSet, info);
      && Parted(q, r.left, r.resumed) && r.eventSet.Keys == eventSet.Keys
      && (forall t :: t in eventSet && t !in r.resumed ==> r.eventSet[t] == eventSet[t])
  {
    if q == [] {
    } else {
      var t, rest := q[0], q[1..];
      assert q == [t] + rest && t !in rest && NoDup(rest);
      if Satisfied(bits, eventSet[t], info[t]) {
        var bits', es := Cleared(bits, eventSet[t], info[t]), eventSet[t := bits * eventSet[t]];
        ReplayParts(bits', rest, es, info);
        ResumedCons(t, rest, Replay(bits', rest, es, info).left, Replay(bits', rest, es, info).resumed);
      } else {
        ReplayParts(bits, rest, eventSet, info);
        LeftCons(t, rest, Replay(bits, rest, eventSet, info).left, Replay(bits, rest, eventSet, info).resumed);
      }
    }
  }

  /** The bits only shrink. */
  lemma {:induction false} ReplayShrinks(bits: Bits, q: seq<Tid>, eventSet: map<Tid, Bits>, info: map<Tid, Flags>)
    requires forall t :: t in q ==> t in eventSet && t in info
    ensures Replay(bits, q, eventSet, info).bits <= bits
  {
    if q != [] {
      var t := q[0];
      if Satisfied(bits, eventSet[t], info[t]) {
        var bits', es := Cleared(bits, eventSet[t], info[t]), eventSet[t := bits * eventSet[t]];
        ReplayShrinks(bits', q[1..], es, info);
      } else {
        ReplayShrinks(bits, q[1..], eventSet, info);
      }
    }
  }

  /** So nobody left in the queue is satisfied by what remains. */
  lemma {:induction false} ReplayQuiet(bits: Bits, q: seq<Tid>, eventSet: map<Tid, Bits>, info: map<Tid, Flags>)
    requires NoDup(q) && forall t :: t in q ==> t in eventSet && t in info
    ensures var r := Replay(bits, q, eventSet, info); Quiet(r.bits, r.left, r.eventSet, info)
  {
    if q != [] {
      var t, rest := q[0], q[1..];
      assert q == [t] + rest && t !in rest && NoDup(rest);
      var r := Replay(bits, q, eventSet, info);
      if Satisfied(bits, eventSet[t], info[t]) {
        ReplayQuiet(Cleared(bits, eventSet[t], info[t]), rest, eventSet[t := bits * eventSet[t]], info);
      } else {
        ReplayQuiet(bits, rest, eventSet, info);
        ReplayParts(bits, rest, eventSet, info);
        ReplayShrinks(bits, rest, eventSet, info);
        NotYetSatisfied(r.bits, bits, eventSet[t], info[t]);
        assert r.left == [t] + Replay(bits, rest, eventSet, info).left;
        assert t !in r.resumed;
      }
    }
  }

  /** What each waiter gets: at its turn, what a non-blocking receive would return from the bits that those before it
      have left; or it stays. */
  lemma {:induction false} ReplayDelivers(bits: Bits, q: seq<Tid>, eventSet: map<Tid, Bits>, info: map<Tid, Flags>, k: nat)
    requires NoDup(q) && k < |q| && forall t :: t in q ==> t in eventSet && t in info
    ensures var t, r, b := q[k], Replay(bits, q, eventSet, info), Replay(bits, q[..k], eventSet, info).bits;
      && t in r.eventSet
      && if Satisfied(b, eventSet[t], info[t]) then t in r.resumed && r.eventSet[t] == b * eventSet[t]
         else t in r.left && r.eventSet[t] == eventSet[t]
    decreases k
  {
    hide Satisfied, Cleared;
    var h, rest := q[0], q[1..];
    assert q == [h] + rest && h !in rest && NoDup(rest);
    var served := Satisfied(bits, eventSet[h], info[h]);
    var bits' := if served then Cleared(bits, eventSet[h], info[h]) else bits;
    var es := if served then eventSet[h := bits * eventSet[h]] else eventSet;
    ReplayParts(bits', rest, es, info);
    if k == 0 {
      assert q[..0] == [];
    } else {
      PrefixReplay(bits, q, eventSet, info, k);
      assert q[k] == rest[k - 1] && q[k] in rest;
      ReplayDelivers(bits', rest, es, info, k - 1);
    }
  }

  /** The first waiter's turn, in the replay of a prefix. */
  lemma PrefixReplay(bits: Bits, q: seq<Tid>, eventSet: map<Tid, Bits>, info: map<Tid, Flags>, k: nat)
    requires 0 < k <= |q| && forall t :: t in q ==> t in eventSet && t in info
    ensures var h, rest := q[0], q[1..];
      Replay(bits, q[..k], eventSet, info).bits ==
        if Satisfied(bits, eventSet[h], info[h]) then
          Replay(Cleared(bits, eventSet[h], info[h]), rest[..k - 1], eventSet[h := bits * eventSet[h]], info).bits
        else Replay(bits, rest[..k - 1], eventSet, info).bits
  {
    assert q[..k][0] == q[0] && q[..k][1..] == q[1..][..k - 1];
  }

  /** Nobody is woken short: every bit that a resumed thread is given was set and asked for, an AND waiter gets all that
      it asked for, and an OR waiter at least one bit. */
  lemma {:induction false} ReplayGives(bits: Bits, q: seq<Tid>, eventSet: map<Tid, Bits>, info: map<Tid, Flags>, t: Tid)
    requires NoDup(q) && forall x :: x in q ==> x in eventSet && x in info && Chosen(info[x])
    requires t in Replay(bits, q, eventSet, info).resumed
    ensures var given := Replay(bits, q, eventSet, info).eventSet;
      && t in q && t in given
      && (forall b :: b in given[t] ==> b in eventSet[t] && b in bits)
      && (info[t].all ==> forall b :: b in eventSet[t] ==> b in given[t])
      && (!info[t].all ==> exists b :: b in given[t])
  {
    var h, rest := q[0], q[1..];
    HeadOf(q);
    SatisfiedBits(bits, eventSet[h], info[h]);
    if Satisfied(bits, eventSet[h], info[h]) {
      var bits', es := Cleared(bits, eventSet[h], info[h]), eventSet[h := bits * eventSet[h]];
      ReplayParts(bits', rest, es, info);
      if t == h { ResumedInQueue(bits', rest, es, info); } else { ReplayGives(bits', rest, es, info, t); }
    } else {
      ReplayGives(bits, rest, eventSet, info, t);
    }
  }

  /** Which bits are left: those that no resumed thread with CLEAR asked for. */
  lemma {:induction false} ReplayLeaves(bits: Bits, q: seq<Tid>, eventSet: map<Tid, Bits>, info: map<Tid, Flags>, b: nat)
    requires NoDup(q) && forall t :: t in q ==> t in eventSet && t in info && Chosen(info[t])
    ensures var r := Replay(bits, q, eventSet, info);
      && (forall t :: t in r.resumed ==> t in q)
      && (b in r.bits <==> b in bits && forall t :: t in r.resumed ==> !(info[t].clear && b in eventSet[t]))
  {
    ResumedInQueue(bits, q, eventSet, info);
    if q != [] {
      var h, rest := q[0], q[1..];
      HeadOf(q);
      SatisfiedBits(bits, eventSet[h], info[h]);
      hide Satisfied, Cleared;
      if Satisfied(bits, eventSet[h], info[h]) {
        var bits', es := Cleared(bits, eventSet[h], info[h]), eventSet[h := bits * eventSet[h]];
        ReplayLeaves(bits', rest, es, info, b);
        ConsMembers(h, Replay(bits', rest, es, info).resumed);
        assert forall t :: t in rest ==> es[t] == eventSet[t];
      } else {
        ReplayLeaves(bits, rest, eventSet, info, b);
      }
    }
  }

  lemma ResumedInQueue(bits: Bits, q: seq<Tid>, eventSet: map<Tid, Bits>, info: map<Tid, Flags>)
    requires NoDup(q) && forall t :: t in q ==> t in eventSet && t in info
    ensures forall t :: t in Replay(bits, q, eventSet, info).resumed ==> t in q
  {
    ReplayParts(bits, q, eventSet, info);
  }

  lemma NotYetSatisfied(few: Bits, many: Bits, want: Bits, option: Flags)
    requires few <= many && !Satisfied(many, want, option)
    ensures !Satisfied(few, want, option)
  {
    if Satisfied(few, want, option) { SatisfiedMonotone(few, many, want, option); }
  }

  lemma ResumedCons(t: Tid, rest: seq<Tid>, left: seq<Tid>, resumed: seq<Tid>)
    requires Parted(rest, left, resumed)
    ensures Parted([t] + rest, left, [t] + resumed)
  {
  }

  lemma LeftCons(t: Tid, rest: seq<Tid>, left: seq<Tid>, resumed: seq<Tid>)
    requires t !in rest && Parted(rest, left, resumed)
    ensures Parted([t] + rest, [t] + left, resumed)
  {
  }

  // ----- the sections as a state machine -----

  /** `woken`: threads that are out of the wait list and have yet to run on in rt_event_recv. */
  datatype State = State(bits: Bits, waiters: seq<Tid>, eventSet: map<Tid, Bits>, info: map<Tid, Flags>,
                         errors: map<Tid, Outcome>, woken: set<Tid>)

  datatype Call =
    | SendCall(sent: Bits)
    | RecvCall(thread: Tid, want: Bits, option: Flags, timeout: int)    // up to its return or suspension
    | PickupCall(thread: Tid)                                           // the rest, after a wake-up
    | ExpireCall(thread: Tid)                                           // a waiter's timer
    | ResetCall

  datatype Reply = Reply(outcome: Outcome, recved: Bits)

  ghost predicate Requests(q: seq<Tid>, eventSet: map<Tid, Bits>, info: map<Tid, Flags>)
  {
    forall t :: t in q ==> t in eventSet && t in info && Chosen(info[t])
  }

  /** Every waiter has chosen AND or OR and is not satisfied by the bits that are set; nobody waits and is woken. */
  ghost predicate Safe(s: State)
  {
    && NoDup(s.waiters) && Requests(s.waiters, s.eventSet, s.info)
    && Quiet(s.bits, s.waiters, s.eventSet, s.info)
    && (forall t :: t in s.waiters ==> t in s.errors && s.errors[t] == Ok && t !in s.woken)
    && (forall t :: t in s.woken ==> t in s.errors && t in s.eventSet)
  }

  ghost predicate Allowed(s: State, c: Call)
  {
    match c
    case SendCall(sent) => true
    case RecvCall(t, want, option, timeout) => t !in s.waiters && t !in s.woken && Chosen(option)
    case PickupCall(t) => t in s.woken
    case ExpireCall(t) => t in s.waiters
    case ResetCall => true
  }

  /** After rt_event_init. */
  function Initial(): State
  {
    State({}, [], map[], map[], map[], {})
  }

  /** The errors once everyone in `q` has been given -RT_ERROR. */
  function Marked(errors: map<Tid, Outcome>, q: seq<Tid>): map<Tid, Outcome>
    decreases |q|
  {
    if q == [] then errors else Marked(errors[q[0] := Error], q[1..])
  }

  function Members(q: seq<Tid>): set<Tid>
  {
    set t | t in q
  }

  ghost function Step(s: State, c: Call, p: Policy): (State, Reply)
    requires Safe(s) && Allowed(s, c)
  {
    match c
    case SendCall(sent) =>
      if sent == {} then (s, Reply(Error, {}))
      else
        var r := Replay(s.bits + sent, s.waiters, s.eventSet, s.info);
        (s.(bits := r.bits, waiters := r.left, eventSet := r.eventSet, woken := s.woken + Members(r.resumed)),
         Reply(Ok, {}))
    case RecvCall(t, want, option, timeout) =>
      if want == {} then (s, Reply(Error, {}))
      else if Satisfied(s.bits, want, option) then
        (s.(bits := Cleared(s.bits, want, option), eventSet := s.eventSet[t := s.bits * want],
            info := s.info[t := option], errors := s.errors[t := Ok]), Reply(Ok, s.bits * want))
      else if timeout == 0 then (s.(errors := s.errors[t := Timeout]), Reply(Timeout, {}))
      else
        (s.(waiters := Suspend(s.waiters, t, p.prio, p.flag), eventSet := s.eventSet[t := want],
            info := s.info[t := option], errors := s.errors[t := Ok]), Reply(Suspended, {}))
    case PickupCall(t) =>
      (s.(woken := s.woken - {t}), Reply(s.errors[t], if s.errors[t] == Ok then s.eventSet[t] else {}))
    case ExpireCall(t) =>
      (s.(waiters := Without(s.waiters, t), errors := s.errors[t := Timeout], woken := s.woken + {t}), Reply(Ok, {}))
    case ResetCall =>
      (s.(bits := {}, waiters := [], errors := Marked(s.errors, s.waiters), woken := s.woken + Members(s.waiters)),
       Reply(Ok, {}))
  }

  /** Nobody is resumed and left as well. */
  lemma {:induction false} ResumedNotLeft(bits: Bits, q: seq<Tid>, eventSet: map<Tid, Bits>, info: map<Tid, Flags>)
    requires NoDup(q) && forall t :: t in q ==> t in eventSet && t in info
    ensures var r := Replay(bits, q, eventSet, info); forall t :: t in r.resumed ==> t !in r.left
  {
    if q != [] {
      var t, rest := q[0], q[1..];
      assert q == [t] + rest && t !in rest && NoDup(rest);
      var served := Satisfied(bits, eventSet[t], info[t]);
      var bits' := if served then Cleared(bits, eventSet[t], info[t]) else bits;
      var es := if served then eventSet[t := bits * eventSet[t]] else eventSet;
      ResumedNotLeft(bits', rest, es, info);
      ReplayParts(bits', rest, es, info);
    }
  }

  lemma {:induction false} MarkedFacts(errors: map<Tid, Outcome>, q: seq<Tid>)
    requires NoDup(q)
    ensures forall t :: t in q ==> t in Marked(errors, q) && Marked(errors, q)[t] == Error
    ensures forall t :: t in errors && t !in q ==> t in Marked(errors, q) && Marked(errors, q)[t] == errors[t]
    decreases |q|
  {
    if q != [] {
      HeadOf(q);
      MarkedFacts(errors[q[0] := Error], q[1..]);
    }
  }

  lemma StepSafe(s: State, c: Call, p: Policy)
    requires Safe(s) && Allowed(s, c)
    ensures Safe(Step(s, c, p).0)
  {
    match c
    case SendCall(sent) => if sent != {} { SendSafe(s, sent, p); }
    case RecvCall(t, want, option, timeout) => if want != {} { RecvSafe(s, c, p); }
    case PickupCall(t) =>
    case ExpireCall(t) => WithoutMembers(s.waiters, t);
    case ResetCall => MarkedFacts(s.errors, s.waiters);
  }

  lemma SendSafe(s: State, sent: Bits, p: Policy)
    requires Safe(s) && sent != {}
    ensures Safe(Step(s, SendCall(sent), p).0)
  {
    var b := s.bits + sent;
    ReplayParts(b, s.waiters, s.eventSet, s.info);
    ReplayQuiet(b, s.waiters, s.eventSet, s.info);
    ResumedNotLeft(b, s.waiters, s.eventSet, s.info);
  }

  /** What a send means for the waiters, bit by bit. */
  lemma SendBits(s: State, sent: Bits, r: Served)
    requires Safe(s) && sent != {} && Requests(s.waiters, s.eventSet, s.info)
    requires r == Replay(s.bits + sent, s.waiters, s.eventSet, s.info)
    ensures forall b :: b in r.bits ==> b in s.bits || b in sent
    ensures forall t :: t in s.waiters && t !in r.left ==>
      && t in r.resumed && t in r.eventSet
      && (forall b :: b in r.eventSet[t] ==> b in s.eventSet[t] && (b in s.bits || b in sent))
      && (s.info[t].all ==> forall b :: b in s.eventSet[t] ==> b in r.eventSet[t])
      && (!s.info[t].all ==> exists b :: b in r.eventSet[t])
    ensures forall t :: t in r.left ==>
      && t in s.waiters && t in r.eventSet
      && (s.info[t].all ==> exists b :: b in r.eventSet[t] && b !in r.bits)
      && (!s.info[t].all ==> forall b :: b in r.eventSet[t] ==> b !in r.bits)
  {
    var bits := s.bits + sent;
    ReplayShrinks(bits, s.waiters, s.eventSet, s.info);
    ReplayParts(bits, s.waiters, s.eventSet, s.info);
    ReplayQuiet(bits, s.waiters, s.eventSet, s.info);
    hide Replay, Satisfied, Quiet, Parted;
    forall t | t in s.waiters && t !in r.left
      ensures t in r.resumed && t in r.eventSet
      ensures forall b :: b in r.eventSet[t] ==> b in s.eventSet[t] && (b in s.bits || b in sent)
      ensures s.info[t].all ==> forall b :: b in s.eventSet[t] ==> b in r.eventSet[t]
      ensures !s.info[t].all ==> exists b :: b in r.eventSet[t]
    {
      PartedCases(s.waiters, r.left, r.resumed, t);
      ReplayGives(bits, s.waiters, s.eventSet, s.info, t);
    }
    forall t | t in r.left
      ensures t in s.waiters && t in r.eventSet
      ensures s.info[t].all ==> exists b :: b in r.eventSet[t] && b !in r.bits
      ensures !s.info[t].all ==> forall b :: b in r.eventSet[t] ==> b !in r.bits
    {
      PartedCases(s.waiters, r.left, r.resumed, t);
      QuietBits(r.bits, r.left, r.eventSet, s.info, t);
    }
  }

  lemma PartedCases(q: seq<Tid>, left: seq<Tid>, resumed: seq<Tid>, t: Tid)
    requires Parted(q, left, resumed)
    ensures t in q <==> t in left || t in resumed
  {
  }

  /** A waiter that is left alone misses a bit (AND), or finds none of its bits (OR). */
  lemma QuietBits(bits: Bits, q: seq<Tid>, eventSet: map<Tid, Bits>, info: map<Tid, Flags>, t: Tid)
    requires Quiet(bits, q, eventSet, info) && t in q && t in info && Chosen(info[t])
    ensures t in eventSet
    ensures info[t].all ==> exists b :: b in eventSet[t] && b !in bits
    ensures !info[t].all ==> forall b :: b in eventSet[t] ==> b !in bits
  {
    SatisfiedBits(bits, eventSet[t], info[t]);
  }

  lemma WaitersMissBits(s: State)
    requires Safe(s)
    ensures forall t :: t in s.waiters ==>
      && t in s.eventSet && t in s.info
      && (s.info[t].all ==> exists b :: b in s.eventSet[t] && b !in s.bits)
      && (!s.info[t].all ==> forall b :: b in s.eventSet[t] ==> b !in s.bits)
  {
    forall t | t in s.waiters
      ensures t in s.eventSet && t in s.info
      ensures s.info[t].all ==> exists b :: b in s.eventSet[t] && b !in s.bits
      ensures !s.info[t].all ==> forall b :: b in s.eventSet[t] ==> b !in s.bits
    {
      QuietBits(s.bits, s.waiters, s.eventSet, s.info, t);
    }
  }

  lemma RecvSafe(s: State, c: Call, p: Policy)
    requires Safe(s) && c.RecvCall? && Allowed(s, c) && c.want != {}
    ensures Safe(Step(s, c, p).0)
  {
    var s' := Step(s, c, p).0;
    if Satisfied(s.bits, c.want, c.option) {
      QuietShrinks(s.bits, s'.bits, s.waiters, s'.eventSet, s'.info);
    } else if c.timeout != 0 {
      SuspendMembers(s.waiters, c.thread, p.prio, p.flag);
    }
  }

  // ----- the event object -----

  class RtEvent {
    var bits: Bits                    // set
    var waiters: seq<Tid>             // parent.suspend_thread
    const policy: Policy              // parent.parent.flag, and current_priority of every thread
    var eventSet: map<Tid, Bits>      // every thread's event_set
    var eventInfo: map<Tid, Flags>    // every thread's event_info
    var errors: map<Tid, Outcome>     // every thread's error
    var resumed: seq<Tid>             // threads made ready, oldest first

    ghost var woken: set<Tid>

    ghost function Now(): State
      reads this
    {
      State(bits, waiters, eventSet, eventInfo, errors, woken)
    }

    ghost predicate Valid()
      reads this
    {
      Safe(Now())
    }

    /** rt_event_init. */
    constructor (policy: Policy)
      ensures Valid() && Now() == Initial() && this.policy == policy
    {
      bits, waiters, this.policy := {}, [], policy;
      eventSet, eventInfo, errors, resumed, woken := map[], map[], map[], [], {};
    }

    /** rt_event_send's treatment of one waiter.  It narrows an OR waiter's event_set before clearing it,
        where rt_event_recv clears everything that was asked for: the same bits go. */
    method Serve(thread: Tid) returns (status: Outcome)
      requires thread in eventSet && thread in eventInfo
      modifies this`bits, this`eventSet
      ensures status == Invalid <==> !Chosen(eventInfo[thread])
      ensures status == Ok <==> Satisfied(old(bits), old(eventSet)[thread], eventInfo[thread])
      ensures status == Ok ==> bits == Cleared(old(bits), old(eventSet)[thread], eventInfo[thread])
      ensures status == Ok ==> eventSet == old(eventSet)[thread := old(bits) * old(eventSet)[thread]]
      ensures status != Ok ==> bits == old(bits) && eventSet == old(eventSet)
      // bit by bit
      ensures eventInfo[thread].all ==> (status == Ok <==> forall b :: b in old(eventSet)[thread] ==> b in old(bits))
      ensures !eventInfo[thread].all && eventInfo[thread].any ==>
        (status == Ok <==> exists b :: b in old(eventSet)[thread] && b in old(bits))
      ensures status == Ok ==>
        && (forall b :: b in bits <==> b in old(bits) && !(eventInfo[thread].clear && b in old(eventSet)[thread]))
        && thread in eventSet && forall b :: b in eventSet[thread] <==> b in old(eventSet)[thread] && b in old(bits)
    {
      if Chosen(eventInfo[thread]) { SatisfiedBits(bits, eventSet[thread], eventInfo[thread]); }
      var info := eventInfo[thread];
      status := Error;
      if info.all {
        if eventSet[thread] * bits == eventSet[thread] {
          status := Ok;
          assert bits * eventSet[thread] == eventSet[thread];
          assert eventSet[thread := bits * eventSet[thread]] == eventSet;
        }
      } else if info.any {
        if eventSet[thread] * bits != {} {
          assert eventSet[thread] * bits == bits * eventSet[thread];
          eventSet := eventSet[thread := eventSet[thread] * bits];
          status := Ok;
        }
      } else {
        return Invalid;
      }
      if status == Ok && info.clear {
        bits := bits - eventSet[thread];
      }
    }

    /** rt_event_send: or the new bits in, then let every waiter receive in queue order. */
    method Send(sent: Bits) returns (r: Outcome)
      requires Valid()
      modifies this`bits, this`waiters, this`eventSet, this`resumed, this`woken
      ensures Valid() && Allowed(old(Now()), SendCall(sent))
      ensures (Now(), Reply(r, {})) == Step(old(Now()), SendCall(sent), policy)
      ensures sent != {} ==>
        resumed == old(resumed) + Replay(old(bits) + sent, old(waiters), old(eventSet), eventInfo).resumed
      ensures sent == {} ==> r == Error && Now() == old(Now())
      // bit by bit: nobody is woken short, and nobody is left waiting for what is set
      ensures sent != {} ==> r == Ok && forall b :: b in bits ==> b in old(bits) || b in sent
      ensures forall t :: t in old(waiters) && t !in waiters ==>
        && t in woken && t in eventSet && t in old(eventSet) && t in eventInfo
        && (forall b :: b in eventSet[t] ==> b in old(eventSet)[t] && (b in old(bits) || b in sent))
        && (eventInfo[t].all ==> forall b :: b in old(eventSet)[t] ==> b in eventSet[t])
        && (!eventInfo[t].all ==> exists b :: b in eventSet[t])
      ensures forall t :: t in waiters ==>
        && t in old(waiters) && t in eventSet && t in eventInfo
        && (eventInfo[t].all ==> exists b :: b in eventSet[t] && b !in bits)
        && (!eventInfo[t].all ==> forall b :: b in eventSet[t] ==> b !in bits)
    {
      StepSafe(Now(), SendCall(sent), policy);
      if sent == {} {
        WaitersMissBits(Now());
        return Error;
      }
      SendBits(Now(), sent, Replay(bits + sent, waiters, eventSet, eventInfo));
      hide Safe, Replay, Satisfied, Cleared;
      woken := woken + Members(Replay(bits + sent, waiters, eventSet, eventInfo).resumed);
      r := Deliver(bits + sent);
    }

    /** Set the bits and walk along the wait list. */
    method Deliver(b: Bits) returns (r: Outcome)
      requires NoDup(waiters) && forall t :: t in waiters ==> t in eventSet && t in eventInfo && Chosen(eventInfo[t])
      modifies this`bits, this`waiters, this`eventSet, this`resumed
      ensures r == Ok && Sent(Replay(b, old(waiters), old(eventSet), eventInfo), old(resumed))
    {
      PendingIntro(waiters, eventSet, eventInfo);
      bits := b;
      r := Scan();
    }

    /** One waiter of the walk: served and taken off the list, or left alone. */
    method Turn(n: nat, thread: Tid) returns (status: Outcome)
      requires n < |waiters| && thread == waiters[n] && thread in eventSet && thread in eventInfo
      modifies this`bits, this`waiters, this`eventSet, this`resumed
      ensures status == Invalid <==> !Chosen(eventInfo[thread])
      ensures status == Ok <==> Satisfied(old(bits), old(eventSet)[thread], eventInfo[thread])
      ensures status == Ok ==>
        && bits == Cleared(old(bits), old(eventSet)[thread], eventInfo[thread])
        && eventSet == old(eventSet)[thread := old(bits) * old(eventSet)[thread]]
        && waiters == old(waiters)[..n] + old(waiters)[n + 1..] && resumed == old(resumed) + [thread]
      ensures status != Ok ==>
        bits == old(bits) && eventSet == old(eventSet) && waiters == old(waiters) && resumed == old(resumed)
    {
      hide Satisfied, Cleared, Chosen;
      status := Serve(thread);
      if status == Ok {
        waiters := waiters[..n] + waiters[n + 1..];
        resumed := resumed + [thread];
      }
    }

    /** rt_event_send's walk along the wait list. */
    method Scan() returns (r: Outcome)
      requires AllPending(waiters, eventSet, eventInfo)
      modifies this`bits, this`waiters, this`eventSet, this`resumed
      ensures r == Ok && Sent(Replay(old(bits), old(waiters), old(eventSet), eventInfo), old(resumed))
    {
      ghost var all, info := Replay(bits, waiters, eventSet, eventInfo), eventInfo;
      ghost var rest, left, done: seq<Tid> := waiters, [], [];
      var n := 0;
      while n < |waiters|
        invariant eventInfo == info && n == |left| && waiters == left + rest && resumed == old(resumed) + done
        invariant AllPending(rest, eventSet, info)
        invariant Resumable(all, Replay(bits, rest, eventSet, info), left, done)
        decreases |rest|
      {
        hide Satisfied, Cleared, Replay, Resumable, AllPending, Chosen;
        var thread := waiters[n];
        SplitAtScan(waiters, left, rest, n);
        ReplayStep(all, bits, rest, eventSet, info, left, done);
        var status := Turn(n, thread);
        if status == Invalid { return Invalid; }
        if status == Ok {
          done := done + [thread];
        } else {
          left := left + [thread];
          n := n + 1;
        }
        rest := rest[1..];
      }
      assert rest == [];
      return Ok;
    }

    ghost predicate Sent(s: Served, before: seq<Tid>)
      reads this
    {
      bits == s.bits && waiters == s.left && eventSet == s.eventSet && resumed == before + s.resumed
    }

    /** rt_event_recv, up to its return or suspension. */
    method Recv(thread: Tid, want: Bits, option: Flags, timeout: int) returns (r: Outcome, recved: Bits)
      requires Valid() && Allowed(Now(), RecvCall(thread, want, option, timeout))
      modifies this`bits, this`waiters, this`eventSet, this`eventInfo, this`errors
      ensures Valid() && (Now(), Reply(r, recved)) == Step(old(Now()), RecvCall(thread, want, option, timeout), policy)
      // bit by bit: AND needs every bit, OR one, and CLEAR takes what was asked for
      ensures want == {} ==> r == Error && recved == {} && Now() == old(Now())
      ensures want != {} && option.all ==> (r == Ok <==> forall b :: b in want ==> b in old(bits))
      ensures want != {} && !option.all ==> (r == Ok <==> exists b :: b in want && b in old(bits))
      ensures r == Ok ==>
        && (forall b :: b in recved <==> b in want && b in old(bits)) && waiters == old(waiters)
        && (forall b :: b in bits <==> b in old(bits) && !(option.clear && b in want))
      ensures want != {} && r != Ok ==>
        && r == (if timeout == 0 then Timeout else Suspended) && bits == old(bits) && recved == {}
        && waiters == if timeout == 0 then old(waiters) else Suspend(old(waiters), thread, policy.prio, policy.flag)
    {
      SatisfiedBits(bits, want, option);
      StepSafe(Now(), RecvCall(thread, want, option, timeout), policy);
      recved := {};
      if want == {} { return Error, recved; }
      errors := errors[thread := Ok];
      var status := Error;
      if option.all {
        if bits * want == want { status := Ok; }
      } else if option.any {
        if bits * want != {} { status := Ok; }
      }
      if status == Ok {
        recved := bits * want;
        eventSet := eventSet[thread := bits * want];
        eventInfo := eventInfo[thread := option];
        if option.clear { bits := bits - want; }
        return Ok, recved;
      } else if timeout == 0 {
        errors := errors[thread := Timeout];
        assert errors == old(errors)[thread := Timeout];
        return Timeout, recved;
      } else {
        eventSet := eventSet[thread := want];
        eventInfo := eventInfo[thread := option];
        waiters := Suspend(waiters, thread, policy.prio, policy.flag);
        return Suspended, recved;
      }
    }

    /** The rest of rt_event_recv, once the thread is out of the wait list and runs again.  What it finds is what it was
        woken for: see PickedUpAsPromised. */
    method Pickup(thread: Tid) returns (r: Outcome, recved: Bits)
      requires Valid() && Allowed(Now(), PickupCall(thread))
      modifies this`woken
      ensures Valid() && (Now(), Reply(r, recved)) == Step(old(Now()), PickupCall(thread), policy)
    {
      StepSafe(Now(), PickupCall(thread), policy);
      woken := woken - {thread};
      recved := {};
      if errors[thread] != Ok { return errors[thread], recved; }
      recved := eventSet[thread];
      return errors[thread], recved;
    }

    /** A waiter's timer expires. */
    method Expire(thread: Tid)
      requires Valid() && Allowed(Now(), ExpireCall(thread))
      modifies this`waiters, this`errors, this`woken
      ensures Valid() && Now() == Step(old(Now()), ExpireCall(thread), policy).0
    {
      StepSafe(Now(), ExpireCall(thread), policy);
      waiters := Without(waiters, thread);
      errors := errors[thread := Timeout];
      woken := woken + {thread};
    }

    /** rt_event_control(RT_IPC_CMD_RESET): everyone leaves, in queue order and with an error, and the bits are
        cleared. */
    method Reset()
      requires Valid()
      modifies this`bits, this`waiters, this`errors, this`resumed, this`woken
      ensures Valid() && Allowed(old(Now()), ResetCall) && Now() == Step(old(Now()), ResetCall, policy).0
      ensures resumed == old(resumed) + old(waiters)
      ensures forall t :: t in old(waiters) ==> t in errors && errors[t] == Error
      ensures forall t :: t in old(errors) && t !in old(waiters) ==> t in errors && errors[t] == old(errors)[t]
    {
      StepSafe(Now(), ResetCall, policy);
      MarkedFacts(errors, waiters);
      ResumeAll();
      bits := {};
    }

    /** _ipc_list_resume_all. */
    method ResumeAll()
      modifies this`waiters, this`errors, this`resumed, this`woken
      ensures waiters == [] && resumed == old(resumed) + old(waiters) && woken == old(woken) + Members(old(waiters))
      ensures errors == Marked(old(errors), old(waiters))
    {
      ghost var gone: seq<Tid> := [];
      woken := woken + Members(waiters);
      hide Members;
      while waiters != []
        invariant old(waiters) == gone + waiters && resumed == old(resumed) + gone
        invariant woken == old(woken) + Members(old(waiters))
        invariant Marked(errors, waiters) == Marked(old(errors), old(waiters))
        decreases |waiters|
      {
        var thread := waiters[0];
        waiters := waiters[1..];
        errors := errors[thread := Error];
        resumed := resumed + [thread];
        gone := gone + [thread];
      }
      assert gone == old(waiters);
    }
  }

  /** A replay of the whole queue, in terms of what is behind and ahead of the scan. */
  ghost predicate Resumable(all: Served, ahead: Served, left: seq<Tid>, done: seq<Tid>)
  {
    && all.bits == ahead.bits && all.eventSet == ahead.eventSet
    && all.left == left + ahead.left && all.resumed == done + ahead.resumed
  }

  /** The waiters the scan has yet to look at. */
  ghost predicate AllPending(rest: seq<Tid>, eventSet: map<Tid, Bits>, info: map<Tid, Flags>)
    ensures AllPending(rest, eventSet, info) ==> forall t :: t in rest ==> t in eventSet && t in info
  {
    rest == [] ||
    (rest[0] !in rest[1..] && rest[0] in eventSet && rest[0] in info && Chosen(info[rest[0]])
     && AllPending(rest[1..], eventSet, info))
  }

  lemma {:induction false} PendingIntro(rest: seq<Tid>, eventSet: map<Tid, Bits>, info: map<Tid, Flags>)
    requires NoDup(rest) && forall t :: t in rest ==> t in eventSet && t in info && Chosen(info[t])
    ensures AllPending(rest, eventSet, info)
  {
    if rest != [] {
      assert rest == [rest[0]] + rest[1..];
      PendingIntro(rest[1..], eventSet, info);
    }
  }

  lemma {:induction false} PendingUpdate(rest: seq<Tid>, eventSet: map<Tid, Bits>, info: map<Tid, Flags>, t: Tid, b: Bits)
    requires AllPending(rest, eventSet, info)
    ensures AllPending(rest, eventSet[t := b], info)
  {
    if rest != [] { PendingUpdate(rest[1..], eventSet, info, t, b); }
  }

  lemma SplitAtScan(w: seq<Tid>, left: seq<Tid>, rest: seq<Tid>, n: nat)
    requires w == left + rest && n == |left| && n < |w|
    ensures w[n] == rest[0] && w[..n] + w[n + 1..] == left + rest[1..] && w == left + [w[n]] + rest[1..]
  {
    assert rest == [rest[0]] + rest[1..];
  }

  /** One waiter scanned. */
  lemma ReplayStep(all: Served, bits: Bits, rest: seq<Tid>, eventSet: map<Tid, Bits>, info: map<Tid, Flags>,
                   left: seq<Tid>, done: seq<Tid>)
    requires AllPending(rest, eventSet, info) && rest != []
    requires Resumable(all, Replay(bits, rest, eventSet, info), left, done)
    ensures Chosen(info[rest[0]])
    ensures var t := rest[0];
      if Satisfied(bits, eventSet[t], info[t]) then
        var bits', es := Cleared(bits, eventSet[t], info[t]), eventSet[t := bits * eventSet[t]];
        AllPending(rest[1..], es, info) && Resumable(all, Replay(bits', rest[1..], es, info), left, done + [t])
      else
        AllPending(rest[1..], eventSet, info)
        && Resumable(all, Replay(bits, rest[1..], eventSet, info), left + [t], done)
  {
    var t := rest[0];
    if Satisfied(bits, eventSet[t], info[t]) {
      PendingUpdate(rest[1..], eventSet, info, t, bits * eventSet[t]);
      var r := Replay(Cleared(bits, eventSet[t], info[t]), rest[1..], eventSet[t := bits * eventSet[t]], info);
      assert done + ([t] + r.resumed) == done + [t] + r.resumed;
    } else {
      var r := Replay(bits, rest[1..], eventSet, info);
      assert left + ([t] + r.left) == left + [t] + r.left;
    }
  }

  lemma QuietShrinks(many: Bits, few: Bits, q: seq<Tid>, eventSet: map<Tid, Bits>, info: map<Tid, Flags>)
    requires few <= many && Quiet(many, q, eventSet, info)
    ensures Quiet(few, q, eventSet, info)
  {
    forall t | t in q ensures !Satisfied(few, eventSet[t], info[t]) {
      NotYetSatisfied(few, many, eventSet[t], info[t]);
    }
  }
}
