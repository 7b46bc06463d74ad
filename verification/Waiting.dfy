/** Waiting for a supply (of mails, free slots, blocks): suspended threads, and woken ones that have yet to look
    again.  Shared by the mailbox, the message queue and the memory pool. */
module Waiting {
  import opened Sequences
  import opened WaitQueue

  /** How an object queues its threads. */
  datatype Policy = Policy(flag: Flag, prio: map<Tid, nat>)

  /** Enough threads are on their way to use everything the suspended ones wait for. */
  ghost predicate Covered(supply: int, waiting: seq<Tid>, woken: set<Tid>)
  {
    waiting != [] ==> supply <= |woken|
  }

  ghost predicate Queues(waiting: seq<Tid>, woken: set<Tid>)
  {
    NoDup(waiting) && forall t :: t in waiting ==> t !in woken
  }

  lemma WakeCovers(supply: int, waiting: seq<Tid>, woken: set<Tid>)
    requires Queues(waiting, woken) && waiting != [] && Covered(supply, waiting, woken)
    ensures Queues(waiting[1..], woken + {waiting[0]})
    ensures |woken + {waiting[0]}| == |woken| + 1
    ensures Covered(supply + 1, waiting[1..], woken + {waiting[0]})
  {
    assert waiting == [waiting[0]] + waiting[1..];
    assert woken + {waiting[0]} - {waiting[0]} == woken;
  }

  lemma LookCovers(supply: int, waiting: seq<Tid>, woken: set<Tid>, t: Tid)
    requires Queues(waiting, woken) && Covered(supply, waiting, woken)
    ensures Queues(waiting, woken - {t}) && Covered(supply - 1, waiting, woken - {t})
  {
  }

  lemma SuspendQueues(waiting: seq<Tid>, woken: set<Tid>, t: Tid, p: Policy)
    requires Queues(waiting, woken) && t !in waiting
    ensures Queues(Suspend(waiting, t, p.prio, p.flag), woken - {t})
  {
    SuspendMembers(waiting, t, p.prio, p.flag);
  }
}
