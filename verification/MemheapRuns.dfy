/** Whole runs of memheap.c: any sequence of rt_memheap_alloc, rt_memheap_realloc and rt_memheap_free on live blocks. */
module MemheapRuns {
  import opened Sequences
  import opened Layout
  import opened LayoutLive
  import opened Words
  import opened LayoutTotals
  import opened Slots
  import opened MemheapPool
  import opened Memheap
  import opened HeapCalls

  lemma LeastBig(p: Pool, n: nat)
    requires !NoneBig(p, n)
    ensures exists j: nat :: FirstBig(p, j, n)
  {
    var j: nat := 0;
    while !Big(p.blocks, p.free[j], n)
      invariant j < |p.free| && forall k: nat :: k < j ==> !Big(p.blocks, p.free[k], n)
      decreases |p.free| - j
    {
      j := j + 1;
      if j == |p.free| { assert NoneBig(p, n); }
    }
    assert FirstBig(p, j, n);
  }

  ghost function BigPlace(p: Pool, n: nat): (j: nat)
    requires !NoneBig(p, n)
    ensures FirstBig(p, j, n)
  {
    LeastBig(p, n);
    var j: nat :| FirstBig(p, j, n); j
  }

  /** The row's number of the block at place `j` of the list. */
  ghost function FreeIndex(p: Pool, end: nat, j: nat): (i: nat)
    requires Agree(p, end) && j < |p.free|
    ensures FreeAt(p.blocks, i, p.free[j])
  {
    ListedBlock(p, end, j);
    var i: nat :| FreeAt(p.blocks, i, p.free[j]); i
  }

  ghost function TakeFirst(p: Pool, end: nat, n: nat): Pool
    requires Agree(p, end)
  {
    if Cannot(p, n) then p else Take(p, FreeIndex(p, end, BigPlace(p, n)), n)
  }

  ghost function Resize(p: Pool, end: nat, i: nat, n: nat): Pool
    requires Agree(p, end) && i + 1 < |p.blocks|
  {
    var room := Room(p.blocks, i, HEADER);
    if n <= room then (if n + HEADER + MIN_SIZE >= room then p else CutDown(p, i, n))
    else if i + 2 < |p.blocks| && !p.blocks[i + 1].used && n + MIN_SIZE < room + Room(p.blocks, i + 1, HEADER)
    then GrowInto(p, i, n)
    else if Cannot(p, n) then p
    else
      var k := FreeIndex(p, end, BigPlace(p, n));
      GiveBack(Take(p, k, n), ShiftedIndex(p.blocks, i, k, n, HEADER))
  }

  /** What each call does to the pool; Perform shows that the methods of Memheap.MemHeap do it. */
  ghost function Step(p: Pool, end: nat, c: Call): Pool
    requires Agree(p, end)
  {
    match c
    case AllocCall(size) => TakeFirst(p, end, Need(size))
    case FreeCall(off) => if HasLive(p.blocks, off) then GiveBack(p, LiveIndex(p.blocks, off)) else p
    case ReallocCall(off, newsize) =>
      if !HasLive(p.blocks, off) then p
      else if newsize == 0 then GiveBack(p, LiveIndex(p.blocks, off))
      else Resize(p, end, LiveIndex(p.blocks, off), Need(newsize))
  }

  lemma ChosenFits(p: Pool, end: nat, n: nat)
    requires Agree(p, end) && !Cannot(p, n)
    ensures var k := FreeIndex(p, end, BigPlace(p, n)); n <= Room(p.blocks, k, HEADER)
  {
    var j := BigPlace(p, n);
    assert FirstBig(p, j, n);
    NotBig(p.blocks, end, FreeIndex(p, end, j), n);
  }

  lemma StepAgrees(p: Pool, end: nat, c: Call)
    requires Agree(p, end)
    ensures Agree(Step(p, end, c), end)
  {
    match c
    case AllocCall(size) =>
      NeedFacts(size);
      if !Cannot(p, Need(size)) {
        ChosenFits(p, end, Need(size));
        TakeAgrees(p, end, FreeIndex(p, end, BigPlace(p, Need(size))), Need(size));
      }
    case FreeCall(off) =>
      if HasLive(p.blocks, off) { GiveBackAgrees(p, end, LiveIndex(p.blocks, off)); }
    case ReallocCall(off, newsize) =>
      if HasLive(p.blocks, off) {
        if newsize == 0 { GiveBackAgrees(p, end, LiveIndex(p.blocks, off)); }
        else {
          NeedFacts(newsize);
          ResizeAgrees(p, end, LiveIndex(p.blocks, off), Need(newsize));
        }
      }
  }

  lemma ResizeAgrees(p: Pool, end: nat, i: nat, n: nat)
    requires Agree(p, end) && i + 1 < |p.blocks| && p.blocks[i].used && n % 4 == 0
    ensures Agree(Resize(p, end, i, n), end)
  {
    var room := Room(p.blocks, i, HEADER);
    if n <= room {
      if n + HEADER + MIN_SIZE < room { CutDownAgrees(p, end, i, n); }
    } else if i + 2 < |p.blocks| && !p.blocks[i + 1].used && n + MIN_SIZE < room + Room(p.blocks, i + 1, HEADER) {
      GrowIntoAgrees(p, end, i, n);
    } else if !Cannot(p, n) {
      var k := FreeIndex(p, end, BigPlace(p, n));
      ChosenFits(p, end, n);
      TakeAgrees(p, end, k, n);
      MovedIndex(p.blocks, HEADER, end, i, k, n);
      GiveBackAgrees(Take(p, k, n), end, ShiftedIndex(p.blocks, i, k, n, HEADER));
    }
  }

  ghost function Run(p: Pool, end: nat, calls: seq<Call>): Pool
    requires Agree(p, end)
    decreases |calls|
  {
    if calls == [] then p
    else
      StepAgrees(p, end, calls[0]);
      Run(Step(p, end, calls[0]), end, calls[1..])
  }

  /** What rt_memheap_init leaves. */
  ghost function Fresh(end: nat): (p: Pool)
    requires end >= HEADER && end % 4 == 0
    ensures Agree(p, end)
  {
    FreshPool(end);
    Pool([Block(0, false), Block(end, true)], [0])
  }

  /** In every reachable pool the two lists agree. */
  lemma {:induction false} RunAgrees(p: Pool, end: nat, calls: seq<Call>)
    requires Agree(p, end)
    ensures Agree(Run(p, end, calls), end)
    decreases |calls|
  {
    if calls != [] {
      StepAgrees(p, end, calls[0]);
      RunAgrees(Step(p, end, calls[0]), end, calls[1..]);
    }
  }

  /** Two runs that leave the same blocks live leave the same blocks and the same free ones; only the order of the
      free list remembers what each did on the way. */
  lemma SameBlocksWhateverTheOrder(end: nat, calls: seq<Call>, calls': seq<Call>)
    requires end >= HEADER && end % 4 == 0
    requires SameLive(Run(Fresh(end), end, calls).blocks, Run(Fresh(end), end, calls').blocks)
    ensures var p, q := Run(Fresh(end), end, calls), Run(Fresh(end), end, calls');
      p.blocks == q.blocks && forall off: nat :: off in p.free <==> off in q.free
  {
    var p, q := Run(Fresh(end), end, calls), Run(Fresh(end), end, calls');
    RunAgrees(Fresh(end), end, calls);
    RunAgrees(Fresh(end), end, calls');
    LiveSetDeterminesLayout(p.blocks, q.blocks, HEADER, end);
    forall off: nat ensures off in p.free <==> off in q.free {
      assert ListedAt(p.blocks, p.free, off) && ListedAt(q.blocks, q.free, off);
    }
  }

  /** Once nothing is live, the pool is as rt_memheap_init left it, free list included, and all of it is available. */
  lemma AllFreedIsFresh(end: nat, calls: seq<Call>)
    requires end >= HEADER && end % 4 == 0
    requires forall off: nat, ext: nat :: !IsLive(Run(Fresh(end), end, calls).blocks, off, ext)
    ensures Run(Fresh(end), end, calls) == Fresh(end) && FreeRoom(Fresh(end).blocks, HEADER) == end - HEADER
  {
    var p := Run(Fresh(end), end, calls);
    RunAgrees(Fresh(end), end, calls);
    NothingLiveMeansOneFreeBlock(p.blocks, HEADER, end);
    FreshPool(end);
    assert ListedAt(p.blocks, p.free, 0);
    forall i | 0 <= i < |p.free| ensures p.free[i] == 0 {
      assert ListedAt(p.blocks, p.free, p.free[i]);
      var k :| 0 <= k < |p.blocks| && p.blocks[k] == Block(p.free[i], false);
    }
    if |p.free| > 1 { FirstTwoDiffer(p.free); }
  }

  lemma FirstTwoDiffer(s: seq<nat>)
    requires NoDup(s) && |s| > 1
    ensures s[0] != s[1]
  {
  }

  /** Free payload never exceeds what rt_memheap_init had to give. */
  lemma AvailableBounded(end: nat, calls: seq<Call>)
    requires end >= HEADER && end % 4 == 0
    ensures var v := Run(Fresh(end), end, calls).blocks; 0 <= FreeRoom(v, HEADER) <= end - HEADER
  {
    RunAgrees(Fresh(end), end, calls);
    var v := Run(Fresh(end), end, calls).blocks;
    FreeBelowEnd(v, end);
    OneHeaderLess(v, end);
  }

  lemma OneHeaderLess(v: seq<Block>, end: nat)
    requires Tiled(v, HEADER, end)
    ensures FreeRoom(v, HEADER) <= end - HEADER
  {
    assert Apart(v, 0, HEADER);
    TotalAround(v, false, HEADER, 0);
    assert Total(v[..1], false, HEADER) == 0;
    RestFits(v, 1);
  }

  /** From block `i` on there is no more free payload than room. */
  lemma {:induction false} RestFits(v: seq<Block>, i: nat)
    requires i < |v| && forall k: nat :: k + 1 < |v| ==> Apart(v, k, HEADER)
    ensures Total(v[i..], false, HEADER) <= v[|v| - 1].off - v[i].off
    decreases |v| - i
  {
    if i + 1 < |v| {
      assert Apart(v, i, HEADER);
      RestFits(v, i + 1);
      assert v[i..][1..] == v[i + 1..];
    }
  }

  // ----- blocks that no call names -----

  lemma TakeFirstLive(p: Pool, end: nat, n: nat, off: nat, ext: nat)
    requires Agree(p, end) && n % 4 == 0 && IsLive(p.blocks, off, ext)
    ensures IsLive(TakeFirst(p, end, n).blocks, off, ext)
  {
    if !Cannot(p, n) {
      ChosenFits(p, end, n);
      AllocLive(p.blocks, HEADER, end, FreeIndex(p, end, BigPlace(p, n)), n, off, ext);
    }
  }

  lemma ResizeLive(p: Pool, end: nat, i: nat, n: nat, off: nat, ext: nat)
    requires Agree(p, end) && i + 1 < |p.blocks| && p.blocks[i].used && n % 4 == 0
    requires IsLive(p.blocks, off, ext) && off != p.blocks[i].off
    ensures IsLive(Resize(p, end, i, n).blocks, off, ext)
  {
    var v, room := p.blocks, Room(p.blocks, i, HEADER);
    if n <= room {
      if n + HEADER + MIN_SIZE < room { ShrinkLive(v, HEADER, end, i, n, off, ext); }
    } else if i + 2 < |v| && !v[i + 1].used && n + MIN_SIZE < room + Room(v, i + 1, HEADER) {
      GrowLive(v, HEADER, end, i, n, off, ext);
    } else if !Cannot(p, n) {
      var k := FreeIndex(p, end, BigPlace(p, n));
      ChosenFits(p, end, n);
      MovedIndex(v, HEADER, end, i, k, n);
      AllocLive(v, HEADER, end, k, n, off, ext);
      ReleaseLive(Alloc(v, k, n, HEADER), HEADER, end, ShiftedIndex(v, i, k, n, HEADER), off, ext);
    }
  }

  /** A live block that a call does not name stays live, where it is and as long as it is. */
  lemma StepLive(p: Pool, end: nat, c: Call, off: nat, ext: nat)
    requires Agree(p, end) && IsLive(p.blocks, off, ext) && !Names(c, off)
    ensures IsLive(Step(p, end, c).blocks, off, ext)
  {
    match c
    case AllocCall(size) =>
      NeedFacts(size);
      TakeFirstLive(p, end, Need(size), off, ext);
    case FreeCall(o) =>
      if HasLive(p.blocks, o) { ReleaseLive(p.blocks, HEADER, end, LiveIndex(p.blocks, o), off, ext); }
    case ReallocCall(o, newsize) =>
      if HasLive(p.blocks, o) {
        NeedFacts(newsize);
        if newsize == 0 { ReleaseLive(p.blocks, HEADER, end, LiveIndex(p.blocks, o), off, ext); }
        else { ResizeLive(p, end, LiveIndex(p.blocks, o), Need(newsize), off, ext); }
      }
  }

  /** The same over whole runs. */
  lemma {:induction false} LiveThroughout(p: Pool, end: nat, calls: seq<Call>, off: nat, ext: nat)
    requires Agree(p, end) && IsLive(p.blocks, off, ext) && Unnamed(calls, off)
    ensures IsLive(Run(p, end, calls).blocks, off, ext)
    decreases |calls|
  {
    if calls != [] {
      UnnamedRest(calls, off);
      StepLive(p, end, calls[0], off, ext);
      StepAgrees(p, end, calls[0]);
      LiveThroughout(Step(p, end, calls[0]), end, calls[1..], off, ext);
    }
  }

  lemma StepLiveStays(p: Pool, end: nat, c: Call)
    requires Agree(p, end)
    ensures LiveStays(p.blocks, Step(p, end, c).blocks, c)
  {
    forall off: nat, ext: nat | !Names(c, off) && IsLive(p.blocks, off, ext)
      ensures IsLive(Step(p, end, c).blocks, off, ext)
    {
      StepLive(p, end, c, off, ext);
    }
  }

  // ----- the runs are runs of the allocator -----

  /** What memheap.c asks of its callers: pointers it handed out, and 32-bit sizes for which the growth test does not
      wrap. */
  ghost predicate Allowed(p: Pool, c: Call)
  {
    match c
    case AllocCall(size) => size < TWO32
    case FreeCall(off) => HasLive(p.blocks, off)
    case ReallocCall(off, newsize) =>
      HasLive(p.blocks, off) && newsize < TWO32
      && (newsize != 0 ==> NoWrap(p.blocks, LiveIndex(p.blocks, off), Need(newsize)))
  }

  ghost predicate IsRun(p: Pool, end: nat, calls: seq<Call>)
    requires Agree(p, end)
    decreases |calls|
  {
    calls != [] ==>
      Allowed(p, calls[0]) && (StepAgrees(p, end, calls[0]); IsRun(Step(p, end, calls[0]), end, calls[1..]))
  }

  lemma ChoiceIsUnique(p: Pool, end: nat, j: nat, i: nat, n: nat)
    requires Agree(p, end) && FirstBig(p, j, n) && FreeAt(p.blocks, i, p.free[j])
    ensures !NoneBig(p, n) && j == BigPlace(p, n) && i == FreeIndex(p, end, BigPlace(p, n))
  {
    var b := BigPlace(p, n);
    assert FirstBig(p, b, n);
    IndexIsUnique(p.blocks, HEADER, end, i, FreeIndex(p, end, j));
  }

  /** Where the block that rt_memheap_alloc finds for `n` bytes starts. */
  ghost function NewOffset(p: Pool, n: nat): nat
    requires !Cannot(p, Need(n))
  {
    p.free[BigPlace(p, Need(n))]
  }

  method PerformAlloc(h: MemHeap, size: nat) returns (r: int)
    requires h.Valid() && Allowed(h.Now(), AllocCall(size))
    modifies h
    ensures h.Valid() && h.poolSize == old(h.poolSize) && old(h.history) <= h.history
    ensures h.Now() == Step(old(h.Now()), h.End(), AllocCall(size))
    ensures SparesUnnamed(old(h.blocks), old(h.words), h.blocks, h.words, AllocCall(size), HEADER)
    ensures r == NULL <==> Cannot(old(h.Now()), Need(size))
    ensures r != NULL ==> r == NewOffset(old(h.Now()), size) + HEADER
  {
    hide SparesUnnamed, LiveStays, IsLive;
    ghost var p, m0, j, i := h.Now(), h.words, 0, 0;
    StepLiveStays(p, h.End(), AllocCall(size));
    r, j, i := h.Alloc(size);
    if r != NULL { ChoiceIsUnique(p, h.End(), j, i, Need(size)); }
    KeptSpares(p.blocks, m0, h.blocks, h.words, AllocCall(size), HEADER);
  }

  method PerformFree(h: MemHeap, off: nat)
    requires h.Valid() && Allowed(h.Now(), FreeCall(off))
    modifies h
    ensures h.Valid() && h.poolSize == old(h.poolSize) && old(h.history) <= h.history
    ensures h.Now() == Step(old(h.Now()), h.End(), FreeCall(off))
    ensures SparesUnnamed(old(h.blocks), old(h.words), h.blocks, h.words, FreeCall(off), HEADER)
  {
    ghost var p, m0 := h.Now(), h.words;
    StepLiveStays(p, h.End(), FreeCall(off));
    h.Free(off + HEADER, LiveIndex(p.blocks, off));
    KeptSpares(p.blocks, m0, h.blocks, h.words, FreeCall(off), HEADER);
  }

  method PerformRealloc(h: MemHeap, off: nat, newsize: nat) returns (r: int, ghost o: nat, ghost e: nat)
    requires h.Valid() && Allowed(h.Now(), ReallocCall(off, newsize))
    modifies h
    ensures h.Valid() && h.poolSize == old(h.poolSize) && old(h.history) <= h.history
    ensures h.Now() == Step(old(h.Now()), h.End(), ReallocCall(off, newsize))
    ensures SparesUnnamed(old(h.blocks), old(h.words), h.blocks, h.words, ReallocCall(off, newsize), HEADER)
    // the block named: where it is now it is large enough, with every word that lies within both sizes; or it is as it was
    ensures newsize != 0 && r != NULL ==> r == o + HEADER && IsLive(h.blocks, o, e) && HEADER + Need(newsize) <= e
    ensures newsize != 0 && r != NULL ==>
      var i, ptr := LiveIndex(old(h.blocks), off), off + HEADER;
      forall a: nat, b: nat ::
        (a % 4 == 0 && a in old(h.words) && b in h.words && ptr <= a < old(h.blocks)[i + 1].off
         && a - ptr == b - r < Need(newsize)) ==> h.words[b] == old(h.words)[a]
    ensures newsize != 0 && r == NULL ==> h.Now() == old(h.Now()) && h.words == old(h.words)
  {
    if newsize == 0 {
      r, o, e := NULL, 0, 0;
      PerformResizeToNothing(h, off);
    } else {
      ghost var p, m0 := h.Now(), h.words;
      ghost var i := LiveIndex(p.blocks, off);
      ghost var j, k;
      h.BlockSays(off + HEADER, i);
      hide *;
      r, j, k, o, e := h.Realloc(off + HEADER, newsize, i);
      ResizedIsStep(p, h.Now(), h.End(), m0, h.words, i, off, newsize, r, j, k);
    }
  }

  method PerformResizeToNothing(h: MemHeap, off: nat)
    requires h.Valid() && HasLive(h.blocks, off)
    modifies h
    ensures h.Valid() && h.poolSize == old(h.poolSize) && old(h.history) <= h.history
    ensures h.Now() == Step(old(h.Now()), h.End(), ReallocCall(off, 0))
    ensures SparesUnnamed(old(h.blocks), old(h.words), h.blocks, h.words, ReallocCall(off, 0), HEADER)
  {
    ghost var p, m0 := h.Now(), h.words;
    StepLiveStays(p, h.End(), ReallocCall(off, 0));
    h.Free(off + HEADER, LiveIndex(p.blocks, off));
    KeptSpares(p.blocks, m0, h.blocks, h.words, ReallocCall(off, 0), HEADER);
  }

  /** What rt_memheap_realloc ensures, as a step. */
  lemma ResizedIsStep(p: Pool, q: Pool, end: nat, m0: Memory, m1: Memory, i: nat, off: nat, newsize: nat, r: int, j: nat,
                      k: nat)
    requires Agree(p, end) && LiveBlock(p.blocks, i, off) && i == LiveIndex(p.blocks, off) && newsize != 0
    requires Resized(p, q, m0, m1, i, Need(newsize), off + HEADER, r, j, k)
    ensures q == Step(p, end, ReallocCall(off, newsize))
    ensures SparesUnnamed(p.blocks, m0, q.blocks, m1, ReallocCall(off, newsize), HEADER)
  {
    var c := ReallocCall(off, newsize);
    StepLiveStays(p, end, c);
    ResizedIsResize(p, q, end, m0, m1, i, Need(newsize), off + HEADER, r, j, k);
    hide Resized, Resize, Need, KeepsOwned, OthersKept;
    if OthersKept(m0, m1, p.blocks, i, HEADER) {
      MovedSpares(p.blocks, m0, q.blocks, m1, c, i, end, HEADER);
    } else {
      KeptSpares(p.blocks, m0, q.blocks, m1, c, HEADER);
    }
  }

  lemma ResizedIsResize(p: Pool, q: Pool, end: nat, m0: Memory, m1: Memory, i: nat, n: nat, ptr: int, r: int,
                        j: nat, k: nat)
    requires Agree(p, end) && i + 1 < |p.blocks| && Resized(p, q, m0, m1, i, n, ptr, r, j, k)
    ensures q == Resize(p, end, i, n)
    ensures OthersKept(m0, m1, p.blocks, i, HEADER) || KeepsOwned(m0, m1, q.blocks, HEADER)
  {
    var v, room := p.blocks, Room(p.blocks, i, HEADER);
    if n > room && !(i + 2 < |v| && !v[i + 1].used && n + MIN_SIZE < room + Room(v, i + 1, HEADER)) && !Cannot(p, n) {
      ChoiceIsUnique(p, end, j, k, n);
    }
  }

  /** A call on the allocator makes the step that Step says, and spares what it does not name. */
  method Perform(h: MemHeap, c: Call)
    requires h.Valid() && Allowed(h.Now(), c)
    modifies h
    ensures h.Valid() && h.poolSize == old(h.poolSize) && old(h.history) <= h.history
    ensures h.Now() == Step(old(h.Now()), h.End(), c)
    ensures SparesUnnamed(old(h.blocks), old(h.words), h.blocks, h.words, c, HEADER)
  {
    match c {
      case AllocCall(size) => var _ := PerformAlloc(h, size);
      case FreeCall(off) => PerformFree(h, off);
      case ReallocCall(off, newsize) => var _, _, _ := PerformRealloc(h, off, newsize);
    }
  }

  /** Any sequence of calls on the allocator is a run: the headers spell out the two lists of Run, available_size is
      their free payload, and max_used_size the most there ever was in use; and what no call names is as it was. */
  method Replay(h: MemHeap, calls: seq<Call>)
    requires h.Valid() && IsRun(h.Now(), h.End(), calls)
    modifies h
    ensures h.Valid() && h.poolSize == old(h.poolSize) && old(h.history) <= h.history
    ensures h.Now() == Run(old(h.Now()), h.End(), calls)
    ensures RunSpares(old(h.blocks), old(h.words), h.blocks, h.words, calls, HEADER)
    decreases |calls|
  {
    if calls == [] { return; }
    ghost var v, m0, p, end := h.blocks, h.words, h.Now(), h.End();
    StepAgrees(p, end, calls[0]);
    ghost var q := Step(p, end, calls[0]);
    assert Allowed(p, calls[0]) && IsRun(q, end, calls[1..]) && Run(p, end, calls) == Run(q, end, calls[1..]);
    hide Step, Run, IsRun, RunSpares, SparesUnnamed, Allowed;
    Perform(h, calls[0]);
    ghost var u, m1 := h.blocks, h.words;
    Replay(h, calls[1..]);
    RunSparesOn(v, m0, u, m1, h.blocks, h.words, calls, HEADER);
  }

  /** From initialisation on: once nothing is live, all of the pool is available again and the free list is the one
      free block. */
  method InitAndReplay(size: nat, ram: nat -> nat, calls: seq<Call>) returns (h: MemHeap)
    requires 2 * HEADER <= size - size % 4 && size < TWO32
    requires IsRun(Fresh(size - size % 4 - HEADER), size - size % 4 - HEADER, calls)
    ensures fresh(h) && h.Valid() && h.poolSize == size - size % 4
    ensures h.Now() == Run(Fresh(h.End()), h.End(), calls) && h.available <= h.End() - HEADER
    ensures h.poolSize - h.available <= h.maxUsed
    ensures (forall off: nat, ext: nat :: !IsLive(h.blocks, off, ext)) ==>
      h.Now() == Fresh(h.End()) && h.available == h.poolSize - 2 * HEADER
  {
    h := new MemHeap(size, ram);
    Replay(h, calls);
    AvailableBounded(h.End(), calls);
    assert h.history[|h.history| - 1] in h.history;
    if forall off: nat, ext: nat :: !IsLive(h.blocks, off, ext) { AllFreedIsFresh(h.End(), calls); }
  }

  // ----- rt_memheap_realloc while other threads call -----

  lemma {:induction false} RunAppend(p: Pool, end: nat, a: seq<Call>, b: seq<Call>)
    requires Agree(p, end)
    ensures Agree(Run(p, end, a), end) && Run(p, end, a + b) == Run(Run(p, end, a), end, b)
    decreases |a|
  {
    if a == [] {
      assert a + b == b;
    } else {
      assert (a + b)[1..] == a[1..] + b;
      StepAgrees(p, end, a[0]);
      RunAppend(Step(p, end, a[0]), end, a[1..], b);
    }
  }

  lemma RunOne(p: Pool, end: nat, c: Call)
    requires Agree(p, end)
    ensures Agree(Step(p, end, c), end) && Run(p, end, [c]) == Step(p, end, c)
  {
    StepAgrees(p, end, c);
    assert [c][1..] == [] && Run(Step(p, end, c), end, []) == Step(p, end, c);
  }

  lemma MoveIsRun(p: Pool, end: nat, n: nat, before: seq<Call>, after: seq<Call>, s: nat)
    requires Agree(p, end)
    ensures Agree(Step(p, end, AllocCall(n)), end) && Agree(Run(Step(p, end, AllocCall(n)), end, before), end)
    ensures var q := Run(Run(Step(p, end, AllocCall(n)), end, before), end, after);
      Agree(q, end) && Run(p, end, [AllocCall(n)] + before + after + [FreeCall(s)]) == Step(q, end, FreeCall(s))
  {
    var a := [AllocCall(n)] + before;
    RunAppend(p, end, a + after, [FreeCall(s)]);
    RunAppend(p, end, a, after);
    RunAppend(p, end, [AllocCall(n)], before);
    RunOne(p, end, AllocCall(n));
    RunAppend(Step(p, end, AllocCall(n)), end, before, []);
    RunAppend(Run(p, end, a), end, after, []);
    RunOne(Run(p, end, a + after), end, FreeCall(s));
  }

  /** The calls may be made, there is room, and they name neither of the two blocks. */
  ghost predicate Interrupts(p: Pool, end: nat, s: nat, n: nat, before: seq<Call>, after: seq<Call>)
    requires Agree(p, end)
  {
    && !Cannot(p, Need(n))
    && Unnamed(before, s) && Unnamed(before, NewOffset(p, n)) && Unnamed(after, s) && Unnamed(after, NewOffset(p, n))
    && (MoveIsRun(p, end, n, before, after, s);
        var p1 := Step(p, end, AllocCall(n)); IsRun(p1, end, before) && IsRun(Run(p1, end, before), end, after))
  }

  /** The new block: not the old one, live, and large enough; and where its words and the old one's are. */
  lemma NewBlock(p: Pool, end: nat, m: Memory, s: nat, size: nat, n: nat) returns (room: nat)
    requires Agree(p, end) && Backed(m, end + HEADER) && IsLive(p.blocks, s, HEADER + size)
    requires n == Need(n) && !Cannot(p, Need(n))
    ensures var d := NewOffset(p, n);
      && NewPlace(p.blocks, m, s, d, Least(size, n), HEADER) && n <= room
      && IsLive(Step(p, end, AllocCall(n)).blocks, d, HEADER + room)
  {
    var v, k, d := p.blocks, FreeIndex(p, end, BigPlace(p, n)), NewOffset(p, n);
    NeedFacts(n);
    ChosenFits(p, end, n);
    AllocKeeps(v, HEADER, end, k, n);
    room := Room(Alloc(v, k, n, HEADER), k, HEADER);
    AllocLive(v, HEADER, end, k, n, d, HEADER + room);
    var i: nat :| LiveAt(v, i, s, HEADER + size);
    if d == s { IndexIsUnique(v, HEADER, end, i, k); }
    forall e: nat ensures !IsLive(v, d, e) { NotLive(v, HEADER, end, k, d, e); }
    WordsExist(v, m, HEADER, end, i, k, Least(size, n));
  }

  /** The rt_memcpy into live block `d`. */
  method CopyInto(h: MemHeap, d: nat, src: nat, n: nat, ghost room: nat)
    requires h.Valid() && IsLive(h.blocks, d, HEADER + room) && n <= room
    modifies h`words
    ensures h.Valid() && IsCopy(old(h.words), h.words, d + HEADER, src, n)
    ensures CopySparesOthers(h.blocks, old(h.words), h.words, d, HEADER)
  {
    var copied := MemCopy(h.words, d + HEADER, src, n);
    forall off: nat, e: nat | off != d ensures Spared(h.blocks, h.words, h.blocks, copied, off, e, HEADER) {
      CopySpares(h.blocks, HEADER, h.End(), h.words, copied, d, room, src, n, off, e);
    }
    h.words := copied;
  }

  /** rt_memheap_alloc. */
  method AllocateFor(h: MemHeap, s: nat, ghost size: nat, n: nat) returns (dst: nat, ghost room: nat)
    requires h.Valid() && IsLive(h.blocks, s, HEADER + size) && n == Need(n) && !Cannot(h.Now(), Need(n))
    modifies h
    ensures h.Valid() && h.poolSize == old(h.poolSize)
    ensures h.Now() == Step(old(h.Now()), h.End(), AllocCall(n)) && IsLive(h.blocks, dst, HEADER + room)
    ensures dst == NewOffset(old(h.Now()), n) && n <= room
    ensures NewPlace(old(h.blocks), old(h.words), s, dst, Least(size, n), HEADER)
    ensures SparesUnnamed(old(h.blocks), old(h.words), h.blocks, h.words, AllocCall(n), HEADER)
  {
    NeedFacts(n);
    room := NewBlock(h.Now(), h.End(), h.words, s, size, n);
    var r := PerformAlloc(h, n);
    dst := r - HEADER;
  }

  /** rt_memheap_alloc, other threads' calls, rt_memcpy. */
  method AllocateAndCopy(h: MemHeap, s: nat, size: nat, n: nat, before: seq<Call>)
    returns (dst: nat, ghost room: nat, ghost m2: Memory)
    requires h.Valid() && IsLive(h.blocks, s, HEADER + size) && n == Need(n) && !Cannot(h.Now(), Need(n))
    requires Agree(Step(h.Now(), h.End(), AllocCall(n)), h.End())
    requires IsRun(Step(h.Now(), h.End(), AllocCall(n)), h.End(), before)
    requires Unnamed(before, s) && Unnamed(before, NewOffset(h.Now(), n))
    modifies h
    ensures h.Valid() && h.poolSize == old(h.poolSize)
    ensures h.Now() == Run(Step(old(h.Now()), h.End(), AllocCall(n)), h.End(), before)
    ensures dst == NewOffset(old(h.Now()), n) && n <= room
    ensures CopyMade(old(h.blocks), old(h.words), h.blocks, m2, h.words, s, size, dst, room, Least(size, n), HEADER)
    ensures RunSpares(old(h.blocks), old(h.words), h.blocks, h.words, before, HEADER)
  {
    hide Run, Step, IsRun, Undisturbed, BothBacked, IsCopy, NewOffset, Spared, IsLive, Unnamed, CopyMade;
    hide RunSpares, SparesUnnamed, CopySparesOthers, NewPlace, Need, Cannot, MemHeap.Valid;
    ghost var v0, m0 := h.blocks, h.words;
    dst, room := AllocateFor(h, s, size, n);
    ghost var v1, m1 := h.blocks, h.words;
    Replay(h, before);
    m2 := h.words;
    LiveInRun(v1, m1, h.blocks, m2, before, dst, HEADER + room, HEADER);
    CopyInto(h, dst, s + HEADER, Least(size, n), room);
    CopyIsMade(v0, m0, v1, m1, h.blocks, m2, h.words, s, size, n, dst, room, Least(size, n), before, HEADER);
  }

  /** Other threads' calls, then rt_memheap_free of the block at `s`. */
  method ReplayAndFree(h: MemHeap, s: nat, after: seq<Call>, ghost ext: nat)
    requires h.Valid() && IsLive(h.blocks, s, ext) && Unnamed(after, s) && IsRun(h.Now(), h.End(), after)
    modifies h
    ensures h.Valid() && h.poolSize == old(h.poolSize)
    ensures Agree(Run(old(h.Now()), h.End(), after), h.End())
    ensures h.Now() == Step(Run(old(h.Now()), h.End(), after), h.End(), FreeCall(s))
    ensures FreeSpares(old(h.blocks), old(h.words), h.blocks, h.words, s, after, HEADER)
  {
    hide IsRun, Run, Step, Unnamed, RunSpares, SparesUnnamed, FreeSpares, HasLive, IsLive;
    ghost var v3, m3 := h.blocks, h.words;
    Replay(h, after);
    ghost var v4, m4 := h.blocks, h.words;
    LiveInRun(v3, m3, v4, m4, after, s, ext, HEADER);
    LiveHas(v4, s, ext);
    PerformFree(h, s);
    ThenFreed(v3, m3, v4, m4, h.blocks, h.words, s, after, HEADER);
  }

  /** The same, once the copy is made. */
  method FreeAfter(h: MemHeap, s: nat, ghost size: nat, ghost n: nat, after: seq<Call>, ghost d: nat, ghost room: nat,
                   ghost v0: seq<Block>, ghost m0: Memory, ghost m2: Memory)
    requires h.Valid() && CopyMade(v0, m0, h.blocks, m2, h.words, s, size, d, room, Least(size, n), HEADER) && n <= room
    requires Unnamed(after, s) && Unnamed(after, d) && IsRun(h.Now(), h.End(), after)
    modifies h
    ensures h.Valid() && h.poolSize == old(h.poolSize)
    ensures Agree(Run(old(h.Now()), h.End(), after), h.End())
    ensures h.Now() == Step(Run(old(h.Now()), h.End(), after), h.End(), FreeCall(s))
    ensures DataAt(m0, h.blocks, h.words, s, size, n, d, room, HEADER)
    ensures FreeSpares(old(h.blocks), old(h.words), h.blocks, h.words, s, after, HEADER)
  {
    hide IsRun, Run, Step, Unnamed, CopyMade, FreeSpares, DataAt, IsLive, Least;
    ghost var ext := HEADER + size;
    OldStaysLive(v0, m0, h.blocks, m2, h.words, s, size, d, room, Least(size, n), HEADER);
    ghost var v3, m3 := h.blocks, h.words;
    ReplayAndFree(h, s, after, ext);
    DataIsAt(v0, m0, v3, m2, m3, h.blocks, h.words, s, size, n, d, room, after, HEADER);
  }

  /** The moving branch of rt_memheap_realloc holds the lock only inside rt_memheap_alloc and rt_memheap_free.  `before`
      are other threads' calls between the allocation and the copy, `after` those between the copy and the release; they
      name neither of the two blocks.  The data arrives, and every block that nobody names is as it was. */
  method MoveAmongOthers(h: MemHeap, s: nat, size: nat, n: nat, before: seq<Call>, after: seq<Call>)
    returns (r: nat, ghost room: nat)
    requires h.Valid() && IsLive(h.blocks, s, HEADER + size) && n == Need(n)
    requires Interrupts(h.Now(), h.End(), s, n, before, after)
    modifies h
    ensures h.Valid() && h.poolSize == old(h.poolSize)
    ensures h.Now() == Run(old(h.Now()), h.End(), [AllocCall(n)] + before + after + [FreeCall(s)])
    ensures r == NewOffset(old(h.Now()), n) + HEADER
    ensures DataAt(old(h.words), h.blocks, h.words, s, size, n, NewOffset(old(h.Now()), n), room, HEADER)
    ensures BothSpare(old(h.blocks), old(h.words), h.blocks, h.words, s, before, after, HEADER)
    // word by word, as far as both sizes reach
    ensures forall a: nat, b: nat :: (a % 4 == 0 && a in old(h.words) && b in h.words && s + HEADER <= a < s + HEADER + size
                                      && a - (s + HEADER) == b - r < n) ==> h.words[b] == old(h.words)[a]
  {
    LivePayloadsAligned(h.blocks, HEADER, h.End(), s, HEADER + size);
    hide Run, Step, IsRun, NewOffset, Spared, IsLive, Unnamed, CopyMade, DataAt, RunSpares, FreeSpares;
    hide BothSpare, Need, Cannot;
    ghost var v0, m0, m2 := h.blocks, h.words, h.words;
    MoveIsRun(h.Now(), h.End(), n, before, after, s);
    var dst;
    dst, room, m2 := AllocateAndCopy(h, s, size, n, before);
    ghost var v3, m3 := h.blocks, h.words;
    FreeAfter(h, s, size, n, after, dst, room, v0, m0, m2);
    SpareBoth(v0, m0, v3, m3, h.blocks, h.words, s, before, after, HEADER);
    DataAtAddresses(m0, h.blocks, h.words, s, size, n, dst, room, HEADER);
    r := dst + HEADER;
  }
}
