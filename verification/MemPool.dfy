/** The memory pool of mempool.c: equal blocks whose header word is either a link of the free list or a pointer to
    the pool that the block belongs to. */
module MemPool {
  import opened Sequences
  import opened Slots
  import opened WaitQueue
  import opened Waiting
  import Words

  const WORD := 4    // sizeof(rt_uint8_t *)
  const TWO32 := Words.TWO32

  // Block: the call returns a block; Timeout: RT_NULL with -RT_ETIMEOUT; Suspended: it has not returned yet
  datatype Outcome = Block(at: nat) | Timeout | Suspended | Done

  // ----- the pool, as its users see it -----

  datatype State = State(free: seq<nat>, used: set<nat>, waiting: seq<Tid>, woken: set<Tid>)

  datatype Call =
    | Alloc(thread: Tid, time: int)    // one pass of rt_mp_alloc's wait loop
    | Free(at: nat)                    // rt_mp_free
    | Expire(thread: Tid)              // a waiter's timer

  ghost predicate Allowed(s: State, c: Call)
  {
    match c
    case Alloc(t, time) => t !in s.waiting
    case Free(k) => k in s.used
    case Expire(t) => t in s.waiting
  }

  function Wake(s: State): State
  {
    if s.waiting == [] then s else s.(waiting := s.waiting[1..], woken := s.woken + {s.waiting[0]})
  }

  /** A thread that has to wait goes to the front of the list: rt_list_insert_after on the list's head. */
  ghost function Step(s: State, c: Call): (State, Outcome)
    requires Allowed(s, c)
  {
    match c
    case Alloc(t, time) =>
      var s0 := s.(woken := s.woken - {t});
      if s.free != [] then (s0.(free := s.free[1..], used := s.used + {s.free[0]}), Block(s.free[0]))
      else if time == 0 then (s0, Timeout)
      else (s0.(waiting := [t] + s.waiting), Suspended)
    case Free(k) => (Wake(s.(free := [k] + s.free, used := s.used - {k})), Done)
    case Expire(t) => (s.(waiting := Without(s.waiting, t)), Timeout)
  }

  ghost predicate Safe(s: State, total: nat)
  {
    && Whole(s.free, [], s.used, total)
    && Queues(s.waiting, s.woken)
    && Covered(|s.free|, s.waiting, s.woken)
  }

  lemma StepSafe(s: State, c: Call, total: nat)
    requires Safe(s, total) && Allowed(s, c)
    ensures Safe(Step(s, c).0, total)
  {
    match c
    case Alloc(t, time) =>
      LookCovers(|s.free|, s.waiting, s.woken, t);
      if s.free != [] {
        TakeFree(s.free, [], s.used, total);
      } else if time != 0 {
        FrontQueues(s.waiting, s.woken, t);
      }
    case Free(k) =>
      PutBack(s.free, [], s.used, total, k);
      if s.waiting != [] { WakeCovers(|s.free|, s.waiting, s.woken); }
    case Expire(t) => WithoutMembers(s.waiting, t);
  }

  lemma FrontQueues(waiting: seq<Tid>, woken: set<Tid>, t: Tid)
    requires Queues(waiting, woken) && t !in waiting
    ensures Queues([t] + waiting, woken - {t})
  {
    ConsNoDup(t, waiting, waiting);
  }

  /** Giving back the block just allocated restores the pool. */
  lemma FreeUndoesAlloc(s: State, t: Tid, time: int, total: nat)
    requires Safe(s, total) && Allowed(s, Alloc(t, time)) && t !in s.woken && s.free != [] && s.waiting == []
    ensures var (s', r) := Step(s, Alloc(t, time));
      r.Block? && r.at !in s.used && Allowed(s', Free(r.at)) && Step(s', Free(r.at)).0 == s
  {
    TakeFree(s.free, [], s.used, total);
    assert s.free == [s.free[0]] + s.free[1..];
    assert s.used + {s.free[0]} - {s.free[0]} == s.used;
    assert s.woken - {t} == s.woken;
  }

  // ----- whole runs -----

  ghost predicate IsRun(s: State, calls: seq<Call>)
    decreases |calls|
  {
    calls != [] ==> Allowed(s, calls[0]) && IsRun(Step(s, calls[0]).0, calls[1..])
  }

  ghost function After(s: State, calls: seq<Call>): State
    requires IsRun(s, calls)
    decreases |calls|
  {
    if calls == [] then s else After(Step(s, calls[0]).0, calls[1..])
  }

  /** The numbers from `k` up to `n`. */
  function Upto(k: nat, n: nat): seq<nat>
    requires k <= n
    decreases n - k
  {
    if k == n then [] else [k] + Upto(k + 1, n)
  }

  lemma {:induction false} UptoWhole(k: nat, n: nat)
    requires k <= n
    ensures |Upto(k, n)| == n - k && NoDup(Upto(k, n))
    ensures forall x: nat :: x in Upto(k, n) <==> k <= x < n
    decreases n - k
  {
    if k < n {
      UptoWhole(k + 1, n);
      ConsMembers(k, Upto(k + 1, n));
    }
  }

  function Initial(total: nat): State
  {
    State(Upto(0, total), {}, [], {})
  }

  lemma InitialSafe(total: nat)
    ensures Safe(Initial(total), total)
  {
    UptoWhole(0, total);
  }

  lemma {:induction false} RunSafe(s: State, calls: seq<Call>, total: nat)
    requires Safe(s, total) && IsRun(s, calls)
    ensures Safe(After(s, calls), total)
    decreases |calls|
  {
    if calls != [] {
      StepSafe(s, calls[0], total);
      RunSafe(Step(s, calls[0]).0, calls[1..], total);
    }
  }

  /** Over every run each block is either free, exactly once, or allocated, and while a thread is suspended there
      are no more free blocks than threads on their way to look again. */
  lemma BlocksConserved(total: nat, calls: seq<Call>)
    requires IsRun(Initial(total), calls)
    ensures var s := After(Initial(total), calls);
      && |s.free| + |s.used| == total
      && (forall k: nat :: k < total ==> (k in s.free <==> k !in s.used))
      && (s.waiting != [] ==> |s.free| <= |s.woken|)
  {
    InitialSafe(total);
    RunSafe(Initial(total), calls, total);
    var s := After(Initial(total), calls);
    forall k: nat | k < total ensures k in s.free <==> k !in s.used { assert OnePlace(k, s.free, [], s.used); }
  }

  // ----- who is served -----

  /** The threads still waiting, in order of arrival. */
  ghost function Arrivals(s: State, arrivals: seq<Tid>, c: Call): seq<Tid>
    requires Allowed(s, c)
  {
    match c
    case Alloc(t, time) => if Step(s, c).1 == Suspended then arrivals + [t] else arrivals
    case Free(k) => if s.waiting == [] then arrivals else Without(arrivals, s.waiting[0])
    case Expire(t) => Without(arrivals, t)
  }

  ghost function ArrivalsAfter(s: State, arrivals: seq<Tid>, calls: seq<Call>): seq<Tid>
    requires IsRun(s, calls)
    decreases |calls|
  {
    if calls == [] then arrivals
    else ArrivalsAfter(Step(s, calls[0]).0, Arrivals(s, arrivals, calls[0]), calls[1..])
  }

  /** The list is the arrivals backwards. */
  ghost predicate Stacked(waiting: seq<Tid>, arrivals: seq<Tid>)
  {
    NoDup(arrivals) && waiting == Reversed(arrivals)
  }

  lemma StepStacked(s: State, arrivals: seq<Tid>, c: Call)
    requires Stacked(s.waiting, arrivals) && Allowed(s, c)
    ensures Stacked(Step(s, c).0.waiting, Arrivals(s, arrivals, c))
  {
    ReversedMembers(arrivals);
    match c
    case Alloc(t, time) =>
      ConsMembers(t, arrivals);
      assert (arrivals + [t])[..|arrivals|] == arrivals;
    case Free(k) =>
      if arrivals != [] {
        WithoutMembers(arrivals, s.waiting[0]);
        WithoutLast(arrivals);
      }
    case Expire(t) =>
      WithoutMembers(arrivals, t);
      ReversedWithout(arrivals, t);
  }

  lemma {:induction false} RunStacked(s: State, arrivals: seq<Tid>, calls: seq<Call>)
    requires Stacked(s.waiting, arrivals) && IsRun(s, calls)
    ensures Stacked(After(s, calls).waiting, ArrivalsAfter(s, arrivals, calls))
    decreases |calls|
  {
    if calls != [] {
      StepStacked(s, arrivals, calls[0]);
      RunStacked(Step(s, calls[0]).0, Arrivals(s, arrivals, calls[0]), calls[1..]);
    }
  }

  /** Over every run the list is the threads still waiting, latest first, whatever their priorities. */
  lemma LastInFirstOut(total: nat, calls: seq<Call>)
    requires IsRun(Initial(total), calls)
    ensures Stacked(After(Initial(total), calls).waiting, ArrivalsAfter(Initial(total), [], calls))
  {
    RunStacked(Initial(total), [], calls);
  }

  ghost predicate Latest(arrivals: seq<Tid>, t: Tid)
  {
    arrivals != [] && arrivals[|arrivals| - 1] == t
  }

  /** A return of a block wakes exactly the thread after which nobody came that still waits. */
  lemma FreeWakesTheLatest(s: State, arrivals: seq<Tid>, k: nat, t: Tid)
    requires Stacked(s.waiting, arrivals) && Allowed(s, Free(k))
    ensures t in s.waiting && t !in Step(s, Free(k)).0.waiting <==> Latest(arrivals, t)
    ensures Latest(arrivals, t) ==> t in Step(s, Free(k)).0.woken
  {
    ReversedMembers(arrivals);
    if s.waiting != [] { HeadOf(s.waiting); }
  }

  /** `t` waits before, between and after all calls of the run. */
  ghost predicate WaitsThroughout(s: State, calls: seq<Call>, t: Tid)
    requires IsRun(s, calls)
    decreases |calls|
  {
    t in s.waiting && (calls != [] ==> WaitsThroughout(Step(s, calls[0]).0, calls[1..], t))
  }

  /** Its timer does not expire, and whenever a block comes back somebody who came later still waits. */
  ghost predicate AlwaysOvertaken(s: State, arrivals: seq<Tid>, calls: seq<Call>, t: Tid)
    requires IsRun(s, calls)
    decreases |calls|
  {
    calls != [] ==>
      && calls[0] != Expire(t) && (calls[0].Free? ==> !Latest(arrivals, t))
      && AlwaysOvertaken(Step(s, calls[0]).0, Arrivals(s, arrivals, calls[0]), calls[1..], t)
  }

  /** When a waiter is served: at the first return of a block that finds nobody who came later, and not before. */
  lemma {:induction false} WaitsExactlyWhileOvertaken(s: State, arrivals: seq<Tid>, calls: seq<Call>, t: Tid)
    requires Stacked(s.waiting, arrivals) && IsRun(s, calls) && t in s.waiting
    ensures WaitsThroughout(s, calls, t) <==> AlwaysOvertaken(s, arrivals, calls, t)
    decreases |calls|
  {
    if calls != [] {
      var c, s' := calls[0], Step(s, calls[0]).0;
      StepStacked(s, arrivals, c);
      ReversedMembers(arrivals);
      if c.Free? { FreeWakesTheLatest(s, arrivals, c.at, t); }
      if c.Expire? { WithoutMembers(s.waiting, c.thread); }
      if t in s'.waiting {
        WaitsExactlyWhileOvertaken(s', Arrivals(s, arrivals, c), calls[1..], t);
      }
    }
  }

  /** `u` finds the pool empty, waits, is woken by the return of block `k`, and takes it; `n` times. */
  function Hogging(u: Tid, k: nat, n: nat): seq<Call>
  {
    if n == 0 then [] else [Alloc(u, -1), Free(k), Alloc(u, -1)] + Hogging(u, k, n - 1)
  }

  /** The list is last in, first out: a thread that waits for ever can be passed over any number of times. */
  lemma {:induction false} NewcomersServedFirst(s: State, t: Tid, u: Tid, k: nat, n: nat)
    requires s.free == [] && s.used == {k} && s.waiting == [t] && s.woken == {} && t != u
    ensures IsRun(s, Hogging(u, k, n)) && After(s, Hogging(u, k, n)) == s
  {
    if n > 0 {
      var rest := Hogging(u, k, n - 1);
      var calls2 := [Alloc(u, -1)] + rest;
      var calls1 := [Free(k)] + calls2;
      assert Hogging(u, k, n)[1..] == calls1 && calls1[1..] == calls2 && calls2[1..] == rest;
      var s1 := Step(s, Alloc(u, -1)).0;
      assert s1.waiting == [u, t] && s1.free == [] && s1.used == {k} && s1.woken == {};
      var s2 := Step(s1, Free(k)).0;
      assert s2.waiting == [t] && s2.free == [k] && s2.used == {} && s2.woken == {u};
      var s3 := Step(s2, Alloc(u, -1)).0;
      assert s3 == s;
      NewcomersServedFirst(s, t, u, k, n - 1);
      assert IsRun(s2, calls2) && After(s2, calls2) == s;
      assert IsRun(s1, calls1) && After(s1, calls1) == s;
    }
  }

  // ----- where the blocks are -----

  function Offset(k: nat, blockSize: nat): nat
  {
    k * (blockSize + WORD)
  }

  /** Every block, header and payload, lies in the pool, and its payload is aligned. */
  lemma BlockInside(size: nat, blockSize: nat, k: nat)
    requires blockSize % 4 == 0 && k < size / (blockSize + WORD)
    ensures Offset(k, blockSize) + WORD + blockSize <= size && (Offset(k, blockSize) + WORD) % 4 == 0
  {
    var each := blockSize + WORD;
    Next(k, each);
    FitsIn(size, each, k + 1);
    Words.MultipleOf4(k, each);
    Onwards(k * each);
  }

  lemma Onwards(off: nat)
    requires off % 4 == 0
    ensures (off + WORD) % 4 == 0
  {
  }

  /** No two blocks overlap. */
  lemma BlocksApart(blockSize: nat, i: nat, j: nat)
    requires i < j
    ensures Offset(i, blockSize) + WORD + blockSize <= Offset(j, blockSize)
  {
    Next(i, blockSize + WORD);
    Scale(i + 1, j, blockSize + WORD);
  }

  // ----- the last store of rt_mp_init -----

  /** `block_size + sizeof(rt_uint8_t *)` with the block size rounded up, in 32 bits. */
  function Each(blockSize: nat): nat
  {
    (Words.Align4(blockSize) + WORD) % TWO32
  }

  /** The initialisation divides by it: by 0 for four block sizes, and by a header alone for the three above them, which
      round to 0.  For all others it is the block, rounded up, with its header. */
  lemma EachIs(blockSize: nat)
    requires blockSize < TWO32
    ensures Each(blockSize) == 0 <==> TWO32 - 7 <= blockSize <= TWO32 - 4
    ensures TWO32 - 4 < blockSize ==> Each(blockSize) == WORD
    ensures blockSize < TWO32 - 7 ==> blockSize + WORD <= Each(blockSize) < blockSize + WORD + 4
  {
    Words.AlignFacts(blockSize);
    Rounded(Words.Align4(blockSize), blockSize);
  }

  lemma Rounded(aligned: nat, size: nat)
    requires aligned % 4 == 0 && size < TWO32
    requires if size <= TWO32 - 4 then size <= aligned < size + 4 else aligned == 0
    ensures aligned == TWO32 - 4 <==> TWO32 - 7 <= size <= TWO32 - 4
    ensures (aligned + WORD) % TWO32 == if aligned == TWO32 - 4 then 0 else aligned + WORD
  {
  }

  /** `(offset - 1) * (block_size + sizeof(rt_uint8_t *))` once offset has reached `total`, in 32 bits. */
  function LastStore(total: nat, each: nat): nat
  {
    (total + TWO32 - 1) % TWO32 * each % TWO32
  }

  /** The store that ends the free list hits the pool if a block fits; if none does, it goes one block in front of the
      start, which is outside unless block and pool together fill the address space. */
  lemma LastStoreInside(size: nat, each: nat)
    requires size < TWO32 && WORD <= each < TWO32
    ensures LastStore(size / each, each) + WORD <= size <==> size / each > 0 || TWO32 + WORD <= size + each
  {
    if each <= size {
      RoomForOne(size, each, size / each);
      FirstOut(size / each);
      Small(LastStore(size / each, each), (size / each - 1) * each);
    } else {
      NoneFits(size, each);
      Wrapped((TWO32 - 1) * each, each - 1, TWO32 - each);
    }
  }

  lemma RoomForOne(size: nat, each: nat, total: nat)
    requires 0 < each <= size && total == size / each
    ensures 0 < total <= size && 0 <= (total - 1) * each && (total - 1) * each + each <= size
  {
    FitsIn(size, each, total);
    Below(total, each);
    if total > 0 { Next(total - 1, each); Scale(0, total - 1, each); }
  }

  lemma NoneFits(size: nat, each: nat)
    requires size < each
    ensures size / each == 0
  {
  }

  lemma FirstOut(total: nat)
    requires 0 < total < TWO32
    ensures (total + TWO32 - 1) % TWO32 == total - 1
  {
    Wrapped(total + TWO32 - 1, 1, total - 1);
  }

  lemma Small(x: nat, y: nat)
    requires x == y % TWO32 && y < TWO32
    ensures x == y
  {
  }

  lemma Wrapped(x: nat, q: nat, r: nat)
    requires x == q * TWO32 + r && r < TWO32
    ensures x % TWO32 == r
  {
  }

  lemma Below(n: nat, each: nat)
    requires each >= 1
    ensures n <= n * each
  {
    Scale(1, each, n);
  }

  /** For pools and blocks of less than half the address space: exactly when there is room for a block. */
  lemma LastStoreInsideIffRoom(size: nat, each: nat)
    requires size <= 0x8000_0000 && WORD <= each <= 0x8000_0000
    ensures LastStore(size / each, each) + WORD <= size <==> size / each > 0
  {
    LastStoreInside(size, each);
  }

  /** Eight bytes have no room for a block of eight: the store goes twelve bytes in front of the pool. */
  lemma NoRoomStoresInFront()
    ensures 8 / (Words.Align4(8) + WORD) == 0 && LastStore(0, Words.Align4(8) + WORD) == TWO32 - 12
  {
  }

  lemma Next(i: nat, each: nat)
    ensures (i + 1) * each == i * each + each
  {
  }

  lemma FitsIn(size: nat, each: nat, k: nat)
    requires each > 0 && k <= size / each
    ensures k * each <= size
  {
    Scale(k, size / each, each);
  }

  // ----- the pool in memory -----

  /** The header word of a block. */
  datatype Header = Link(to: int) | Owner(pool: Pool)

  const NO_LINK := -2

  function LinkOf(h: Header): int
  {
    if h.Link? then h.to else NO_LINK
  }

  function Links(headers: seq<Header>): seq<int>
  {
    seq(|headers|, i requires 0 <= i < |headers| => LinkOf(headers[i]))
  }

  lemma LinksUpdate(headers: seq<Header>, k: nat, h: Header)
    requires k < |headers|
    ensures Links(headers[k := h]) == Links(headers)[k := LinkOf(h)]
  {
  }

  class Pool {
    const blockSize: nat
    const total: nat                  // block_total_count
    const headers: array<Header>      // the first word of each block
    var freeCount: nat                // block_free_count
    var blockList: int                // block_list
    var waiting: seq<Tid>             // suspend_thread

    ghost var freeList: seq<nat>
    ghost var used: set<nat>
    ghost var woken: set<Tid>

    ghost function Now(): State
      reads this
    {
      State(freeList, used, waiting, woken)
    }

    /** The free list spelled out by the headers, the count, and the owner in every allocated block. */
    ghost predicate Linked()
      reads this, headers
    {
      && headers.Length == total
      && Chain(Links(headers[..]), blockList, freeList)
      && freeCount == |freeList|
      && forall k :: k in used ==> k < total && headers[k] == Owner(this)
    }

    ghost predicate Valid()
      reads this, headers
    {
      Linked() && Safe(Now(), total)
    }

    /** rt_mp_init.  With room for no block at all the loop's last store would fall before the pool. */
    constructor (size: nat, blockSize: nat)
      requires (size - size % 4) / (Words.Align4(blockSize) + WORD) > 0
      ensures Valid() && Now() == Initial(total) && this.blockSize == Words.Align4(blockSize)
      ensures total == (size - size % 4) / (this.blockSize + WORD)
    {
      var each := Words.Align4(blockSize);
      var count := (size - size % 4) / (each + WORD);
      this.blockSize, total, freeCount, blockList := each, count, count, 0;
      headers := new Header[count](_ => Link(NULL));
      waiting, woken, used := [], {}, {};
      freeList := Upto(0, count);
      new;
      var offset := 0;
      while offset < total
        invariant 0 <= offset <= total
        invariant forall k :: 0 <= k < offset ==> headers[k] == Link(k + 1)
        modifies headers
      {
        headers[offset] := Link(offset + 1);
        offset := offset + 1;
      }
      headers[offset - 1] := Link(NULL);
      UptoChain(Links(headers[..]), 0);
      InitialSafe(total);
    }

    /** rt_mp_alloc: one pass, from the test of block_free_count to the next rt_hw_interrupt_enable. */
    method AllocPass(thread: Tid, time: int) returns (r: Outcome)
      requires Valid() && Allowed(Now(), Alloc(thread, time))
      modifies this`freeCount, this`blockList, this`waiting, this`freeList, this`used, this`woken, headers
      ensures Valid() && (Now(), r) == Step(old(Now()), Alloc(thread, time))
      // a free block: the first, whatever the timeout, and owned by the pool; none: given up, or queued in front
      ensures old(freeCount) > 0 ==>
        && old(blockList) >= 0 && r == Block(old(blockList)) && r.at < headers.Length && headers[r.at] == Owner(this)
        && r.at !in old(used) && used == old(used) + {r.at} && [r.at] + freeList == old(freeList)
        && freeCount == old(freeCount) - 1 && waiting == old(waiting)
      ensures old(freeCount) == 0 ==>
        && r == (if time == 0 then Timeout else Suspended) && freeCount == 0 && used == old(used)
        && waiting == if time == 0 then old(waiting) else [thread] + old(waiting)
    {
      StepSafe(Now(), Alloc(thread, time), total);
      r := Pass(thread, time);
    }

    method Pass(thread: Tid, time: int) returns (r: Outcome)
      requires Linked() && Whole(freeList, [], used, total) && Allowed(Now(), Alloc(thread, time))
      modifies this`freeCount, this`blockList, this`waiting, this`freeList, this`used, this`woken, headers
      ensures Linked() && (Now(), r) == Step(old(Now()), Alloc(thread, time))
    {
      woken := woken - {thread};
      if freeCount == 0 {
        if time == 0 { return Timeout; }
        waiting := [thread] + waiting;
        return Suspended;
      }
      var block := TakeBlock();
      return Block(block);
    }

    /** Unlink the first free block and write the owner into it. */
    method TakeBlock() returns (block: nat)
      requires Linked() && Whole(freeList, [], used, total) && freeCount > 0
      modifies this`freeCount, this`blockList, this`freeList, this`used, headers
      ensures Linked() && old(freeList) != [] && block == old(freeList)[0]
      ensures Now() == old(Now()).(free := old(freeList)[1..], used := old(used) + {block})
    {
      ghost var words := headers[..];
      TakeFree(freeList, [], used, total);
      HeadOf(freeList);
      freeCount := freeCount - 1;
      block := blockList;
      assert Chain(Links(words), LinkOf(headers[block]), freeList[1..]);
      blockList := headers[block].to;
      LinksUpdate(words, block, Owner(this));
      ChainElsewhere(Links(words), blockList, freeList[1..], block, NO_LINK);
      headers[block] := Owner(this);
      assert headers[..] == words[block := Owner(this)];
      freeList, used := freeList[1..], used + {block};
    }

    /** rt_mp_free, once the pool is known. */
    method GiveBack(block: nat)
      requires Valid() && Allowed(Now(), Free(block))
      modifies this`freeCount, this`blockList, this`waiting, this`freeList, this`used, this`woken, headers
      ensures Valid() && Now() == Step(old(Now()), Free(block)).0
      ensures freeCount == old(freeCount) + 1 && blockList == block && freeList == [block] + old(freeList)
      ensures used == old(used) - {block} && waiting == if old(waiting) == [] then [] else old(waiting)[1..]
    {
      StepSafe(Now(), Free(block), total);
      PutBack(freeList, [], used, total, block);
      LinkBlock(block);
      if waiting != [] {
        woken := woken + {waiting[0]};
        waiting := waiting[1..];
      }
    }

    /** Link the block in front of the free list. */
    method LinkBlock(block: nat)
      requires Linked() && block in used && block !in freeList
      modifies this`freeCount, this`blockList, this`freeList, this`used, headers
      ensures Linked() && Now() == old(Now()).(free := [block] + old(freeList), used := old(used) - {block})
    {
      ghost var words := headers[..];
      freeCount := freeCount + 1;
      LinksUpdate(words, block, Link(blockList));
      ChainPush(Links(words), blockList, freeList, block);
      headers[block] := Link(blockList);
      assert headers[..] == words[block := Link(blockList)];
      blockList := block;
      freeList, used := [block] + freeList, used - {block};
    }

    /** A waiter's timer. */
    method ExpireWaiter(thread: Tid)
      requires Valid() && Allowed(Now(), Expire(thread))
      modifies this`waiting
      ensures Valid() && Now() == Step(old(Now()), Expire(thread)).0
    {
      StepSafe(Now(), Expire(thread), total);
      waiting := Without(waiting, thread);
    }
  }

  /** The links that rt_mp_init's loop leaves. */
  lemma {:induction false} UptoChain(next: seq<int>, k: nat)
    requires k < |next|
    requires forall i :: 0 <= i < |next| ==> next[i] == if i + 1 < |next| then i + 1 else NULL
    ensures Chain(next, k, Upto(k, |next|))
    decreases |next| - k
  {
    if k + 1 < |next| {
      UptoChain(next, k + 1);
    } else {
      assert Upto(k + 1, |next|) == [];
    }
    assert Upto(k, |next|)[1..] == Upto(k + 1, |next|);
  }

  /** rt_mp_free: a null block is ignored; otherwise the pool is whatever the block's header word points to, and for an
      allocated block that is the pool it came from. */
  method FreeBlock(headers: array<Header>, block: int, ghost pool: Pool)
    requires pool.headers == headers && pool.Valid()
    requires block == NULL || (block >= 0 && Allowed(pool.Now(), Free(block)))
    modifies pool`freeCount, pool`blockList, pool`waiting, pool`freeList, pool`used, pool`woken, headers
    ensures pool.Valid()
    ensures if block == NULL then unchanged(pool) && unchanged(headers)
            else pool.Now() == Step(old(pool.Now()), Free(block)).0
    ensures block != NULL ==> pool.blockList == block && pool.freeCount == old(pool.freeCount) + 1
  {
    if block == NULL { return; }
    var mp := headers[block].pool;
    mp.GiveBack(block);
  }
}
