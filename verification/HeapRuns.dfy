/** Whole runs of the small heap: any sequence of rt_malloc, rt_realloc and rt_free calls on live blocks. */
module HeapRuns {
  import opened Layout
  import opened Words
  import opened LayoutLive
  import opened LayoutTotals
  import opened HeapMemory
  import opened SmallHeap
  import opened HeapCalls

  ghost function FitIndex(v: seq<Block>, need: nat, memSize: nat): (i: nat)
    requires !NoFit(v, need, memSize)
    ensures FirstFit(v, i, need, memSize)
  {
    LeastFit(v, need, memSize);
    var i: nat :| FirstFit(v, i, need, memSize); i
  }

  lemma LeastFit(v: seq<Block>, need: nat, memSize: nat)
    requires !NoFit(v, need, memSize)
    ensures exists i: nat :: FirstFit(v, i, need, memSize)
  {
    var i: nat := 0;
    while !Fits(v, i, need, memSize)
      invariant forall j: nat :: j < i ==> !Fits(v, j, need, memSize)
      decreases |v| - i
    {
      i := i + 1;
    }
    assert FirstFit(v, i, need, memSize);
  }

  lemma FitIsUnique(v: seq<Block>, i: nat, j: nat, need: nat, memSize: nat)
    requires FirstFit(v, i, need, memSize) && FirstFit(v, j, need, memSize)
    ensures i == j
  {
  }

  /** Where the block that rt_malloc finds for `n` bytes starts. */
  ghost function NewOffset(v: seq<Block>, n: nat, memSize: nat): nat
    requires !NoFit(v, Need(n), memSize)
  {
    v[FitIndex(v, Need(n), memSize)].off
  }

  /** What each call does to the layout; Perform shows that the methods of SmallHeap.Heap do it. */
  ghost function Step(v: seq<Block>, call: Call, memSize: nat): seq<Block>
  {
    match call
    case AllocCall(size) => if size == 0 || Align4(size) > memSize then v else Take(v, Need(size), memSize)
    case FreeCall(off) => if HasLive(v, off) then Release(v, LiveIndex(v, off)) else v
    case ReallocCall(off, newsize) =>
      if HasLive(v, off) then Resize(v, LiveIndex(v, off), Align4(newsize), memSize) else v
  }

  ghost function Take(v: seq<Block>, need: nat, memSize: nat): seq<Block>
  {
    if NoFit(v, need, memSize) then v else Alloc(v, FitIndex(v, need, memSize), need, HEADER)
  }

  ghost function Resize(v: seq<Block>, i: nat, n: nat, memSize: nat): seq<Block>
    requires i + 1 < |v|
  {
    if n > memSize then v
    else if n == 0 then Release(v, i)
    else if n == Room(v, i, HEADER) then v
    else if n + HEADER + MIN_SIZE < Room(v, i, HEADER) then Shrink(v, i, n, HEADER)
    else if NoFit(v, Need(n), memSize) then v
    else Moved(v, i, FitIndex(v, Need(n), memSize), Need(n))
  }

  ghost function Run(v: seq<Block>, calls: seq<Call>, memSize: nat): seq<Block>
    decreases |calls|
  {
    if calls == [] then v else Run(Step(v, calls[0], memSize), calls[1..], memSize)
  }

  ghost function Fresh(memSize: nat): seq<Block>
  {
    [Block(0, false), Block(memSize + HEADER, true)]
  }

  lemma StepKeeps(v: seq<Block>, call: Call, memSize: nat)
    requires WellFormed(v, HEADER, memSize + HEADER)
    ensures WellFormed(Step(v, call, memSize), HEADER, memSize + HEADER)
  {
    match call
    case AllocCall(size) =>
      TakeKeeps(v, Need(size), memSize) by { NeedFacts(size); }
    case FreeCall(off) =>
      if HasLive(v, off) { ReleaseKeeps(v, HEADER, memSize + HEADER, LiveIndex(v, off)); }
    case ReallocCall(off, newsize) =>
      if HasLive(v, off) { ResizeKeeps(v, LiveIndex(v, off), Align4(newsize), memSize); }
  }

  lemma TakeKeeps(v: seq<Block>, need: nat, memSize: nat)
    requires WellFormed(v, HEADER, memSize + HEADER) && need % 4 == 0
    ensures WellFormed(Take(v, need, memSize), HEADER, memSize + HEADER)
  {
    if !NoFit(v, need, memSize) {
      var i := FitIndex(v, need, memSize);
      assert Fits(v, i, need, memSize);
      AllocKeeps(v, HEADER, memSize + HEADER, i, need);
    }
  }

  lemma ResizeKeeps(v: seq<Block>, i: nat, n: nat, memSize: nat)
    requires WellFormed(v, HEADER, memSize + HEADER) && i + 1 < |v| && v[i].used && n % 4 == 0
    ensures WellFormed(Resize(v, i, n, memSize), HEADER, memSize + HEADER)
  {
    var end := memSize + HEADER;
    if n > memSize {
    } else if n == 0 {
      ReleaseKeeps(v, HEADER, end, i);
    } else if n + HEADER + MIN_SIZE < Room(v, i, HEADER) {
      ShrinkKeeps(v, HEADER, end, i, n);
    } else if n != Room(v, i, HEADER) && !NoFit(v, Need(n), memSize) {
      var k := FitIndex(v, Need(n), memSize);
      assert Fits(v, k, Need(n), memSize);
      NeedFacts(n);
      MovedIndex(v, HEADER, end, i, k, Need(n));
      ReleaseKeeps(Alloc(v, k, Need(n), HEADER), HEADER, end, ShiftedIndex(v, i, k, Need(n), HEADER));
    }
  }

  /** Every reachable heap is tiled and coalesced. */
  lemma {:induction false} RunKeeps(v: seq<Block>, calls: seq<Call>, memSize: nat)
    requires WellFormed(v, HEADER, memSize + HEADER)
    ensures WellFormed(Run(v, calls, memSize), HEADER, memSize + HEADER)
    decreases |calls|
  {
    if calls != [] {
      StepKeeps(v, calls[0], memSize);
      RunKeeps(Step(v, calls[0], memSize), calls[1..], memSize);
    }
  }

  lemma FreshKeeps(memSize: nat)
    requires memSize % 4 == 0
    ensures WellFormed(Fresh(memSize), HEADER, memSize + HEADER)
  {
    FreshRow(memSize + HEADER);
  }

  /** History independence: two runs that leave the same blocks live leave the same heap, whatever
      each did on the way.  In particular no sequence of calls can fragment a heap permanently. */
  lemma HistoryIndependence(calls: seq<Call>, calls': seq<Call>, memSize: nat)
    requires memSize % 4 == 0
    requires SameLive(Run(Fresh(memSize), calls, memSize), Run(Fresh(memSize), calls', memSize))
    ensures Run(Fresh(memSize), calls, memSize) == Run(Fresh(memSize), calls', memSize)
  {
    FreshKeeps(memSize);
    RunKeeps(Fresh(memSize), calls, memSize);
    RunKeeps(Fresh(memSize), calls', memSize);
    LiveSetDeterminesLayout(Run(Fresh(memSize), calls, memSize), Run(Fresh(memSize), calls', memSize),
                            HEADER, memSize + HEADER);
  }

  /** Once every live block has been freed, the heap is one free block and used_mem is 0. */
  lemma AllFreedIsFresh(calls: seq<Call>, memSize: nat)
    requires memSize % 4 == 0
    requires forall off: nat, ext: nat :: !IsLive(Run(Fresh(memSize), calls, memSize), off, ext)
    ensures Run(Fresh(memSize), calls, memSize) == Fresh(memSize)
    ensures UsedBytes(Run(Fresh(memSize), calls, memSize)) == 0
  {
    FreshKeeps(memSize);
    RunKeeps(Fresh(memSize), calls, memSize);
    NothingLiveMeansOneFreeBlock(Run(Fresh(memSize), calls, memSize), HEADER, memSize + HEADER);
    FreshRow(memSize + HEADER);
  }

  /** Used and free extents always add up to mem_size_aligned + SIZEOF_STRUCT_MEM. */
  lemma BytesConserved(calls: seq<Call>, memSize: nat)
    requires memSize % 4 == 0
    ensures UsedBytes(Run(Fresh(memSize), calls, memSize)) + Total(Run(Fresh(memSize), calls, memSize), false, 0)
            == memSize + HEADER
  {
    FreshKeeps(memSize);
    RunKeeps(Fresh(memSize), calls, memSize);
    UsedPlusFree(Run(Fresh(memSize), calls, memSize));
  }

  // ----- blocks that no call names -----

  lemma TakeLive(v: seq<Block>, need: nat, memSize: nat, off: nat, ext: nat)
    requires WellFormed(v, HEADER, memSize + HEADER) && need % 4 == 0 && IsLive(v, off, ext)
    ensures IsLive(Take(v, need, memSize), off, ext)
  {
    if !NoFit(v, need, memSize) {
      var i := FitIndex(v, need, memSize);
      assert Fits(v, i, need, memSize);
      AllocLive(v, HEADER, memSize + HEADER, i, need, off, ext);
    }
  }

  lemma ResizeLive(v: seq<Block>, i: nat, n: nat, memSize: nat, off: nat, ext: nat)
    requires WellFormed(v, HEADER, memSize + HEADER) && i + 1 < |v| && v[i].used && n % 4 == 0
    requires IsLive(v, off, ext) && off != v[i].off
    ensures IsLive(Resize(v, i, n, memSize), off, ext)
  {
    var end := memSize + HEADER;
    if n > memSize {
    } else if n == 0 {
      ReleaseLive(v, HEADER, end, i, off, ext);
    } else if n + HEADER + MIN_SIZE < Room(v, i, HEADER) {
      ShrinkLive(v, HEADER, end, i, n, off, ext);
    } else if n != Room(v, i, HEADER) && !NoFit(v, Need(n), memSize) {
      var k := FitIndex(v, Need(n), memSize);
      assert Fits(v, k, Need(n), memSize);
      NeedFacts(n);
      LiveSurvivesMove(v, end, i, k, Need(n), off, ext);
    }
  }

  /** A live block that a call does not name stays live, where it is and as long as it is. */
  lemma StepLive(v: seq<Block>, c: Call, memSize: nat, off: nat, ext: nat)
    requires WellFormed(v, HEADER, memSize + HEADER) && IsLive(v, off, ext) && !Names(c, off)
    ensures IsLive(Step(v, c, memSize), off, ext)
  {
    match c
    case AllocCall(size) =>
      NeedFacts(size);
      TakeLive(v, Need(size), memSize, off, ext);
    case FreeCall(o) =>
      if HasLive(v, o) { ReleaseLive(v, HEADER, memSize + HEADER, LiveIndex(v, o), off, ext); }
    case ReallocCall(o, newsize) =>
      if HasLive(v, o) { ResizeLive(v, LiveIndex(v, o), Align4(newsize), memSize, off, ext); }
  }

  /** The same over whole runs. */
  lemma {:induction false} LiveThroughout(v: seq<Block>, calls: seq<Call>, memSize: nat, off: nat, ext: nat)
    requires WellFormed(v, HEADER, memSize + HEADER) && IsLive(v, off, ext) && Unnamed(calls, off)
    ensures IsLive(Run(v, calls, memSize), off, ext)
    decreases |calls|
  {
    if calls != [] {
      assert !Names(calls[0], off);
      StepLive(v, calls[0], memSize, off, ext);
      StepKeeps(v, calls[0], memSize);
      UnnamedRest(calls, off);
      LiveThroughout(Step(v, calls[0], memSize), calls[1..], memSize, off, ext);
    }
  }

  // ----- every pointer handed out lies inside the heap -----

  /** No live block is empty. */
  ghost predicate Inhabited(v: seq<Block>)
  {
    forall off: nat, ext: nat :: IsLive(v, off, ext) ==> HEADER < ext
  }

  lemma TakeInhabited(v: seq<Block>, need: nat, memSize: nat)
    requires WellFormed(v, HEADER, memSize + HEADER) && Inhabited(v) && need % 4 == 0 && 0 < need
    ensures Inhabited(Take(v, need, memSize))
  {
    if !NoFit(v, need, memSize) {
      var i := FitIndex(v, need, memSize);
      assert Fits(v, i, need, memSize);
      AllocKeeps(v, HEADER, memSize + HEADER, i, need);
      forall off: nat, ext: nat | IsLive(Take(v, need, memSize), off, ext) ensures HEADER < ext {
        AllocLive(v, HEADER, memSize + HEADER, i, need, off, ext);
      }
    }
  }

  lemma ReleaseInhabited(v: seq<Block>, memSize: nat, i: nat)
    requires WellFormed(v, HEADER, memSize + HEADER) && Inhabited(v) && i + 1 < |v| && v[i].used
    ensures Inhabited(Release(v, i))
  {
    forall off: nat, ext: nat | IsLive(Release(v, i), off, ext) ensures HEADER < ext {
      ReleaseLive(v, HEADER, memSize + HEADER, i, off, ext);
    }
  }

  lemma ShrinkInhabited(v: seq<Block>, memSize: nat, i: nat, n: nat)
    requires WellFormed(v, HEADER, memSize + HEADER) && Inhabited(v) && i + 1 < |v| && v[i].used
    requires n % 4 == 0 && 0 < n && n + HEADER <= Room(v, i, HEADER)
    ensures Inhabited(Shrink(v, i, n, HEADER))
  {
    forall off: nat, ext: nat | IsLive(Shrink(v, i, n, HEADER), off, ext) ensures HEADER < ext {
      ShrinkLive(v, HEADER, memSize + HEADER, i, n, off, ext);
    }
  }

  lemma MoveInhabited(v: seq<Block>, memSize: nat, i: nat, k: nat, need: nat)
    requires WellFormed(v, HEADER, memSize + HEADER) && Inhabited(v) && i + 1 < |v| && v[i].used
    requires k + 1 < |v| && !v[k].used && need % 4 == 0 && 0 < need <= Room(v, k, HEADER)
    ensures Inhabited(Moved(v, i, k, need))
  {
    AllocKeeps(v, HEADER, memSize + HEADER, k, need);
    forall off: nat, ext: nat | IsLive(Moved(v, i, k, need), off, ext) ensures HEADER < ext {
      LiveSurvivesMove(v, memSize + HEADER, i, k, need, off, ext);
    }
  }

  lemma ResizeInhabited(v: seq<Block>, i: nat, n: nat, memSize: nat)
    requires WellFormed(v, HEADER, memSize + HEADER) && Inhabited(v) && i + 1 < |v| && v[i].used && n % 4 == 0
    ensures Inhabited(Resize(v, i, n, memSize))
  {
    if n > memSize {
    } else if n == 0 {
      ReleaseInhabited(v, memSize, i);
    } else if n + HEADER + MIN_SIZE < Room(v, i, HEADER) {
      ShrinkInhabited(v, memSize, i, n);
    } else if n != Room(v, i, HEADER) && !NoFit(v, Need(n), memSize) {
      var k := FitIndex(v, Need(n), memSize);
      assert Fits(v, k, Need(n), memSize);
      NeedFacts(n);
      MoveInhabited(v, memSize, i, k, Need(n));
    }
  }

  lemma StepInhabited(v: seq<Block>, c: Call, memSize: nat)
    requires WellFormed(v, HEADER, memSize + HEADER) && Inhabited(v)
    ensures Inhabited(Step(v, c, memSize))
  {
    match c
    case AllocCall(size) =>
      NeedFacts(size);
      TakeInhabited(v, Need(size), memSize);
    case FreeCall(off) => if HasLive(v, off) { ReleaseInhabited(v, memSize, LiveIndex(v, off)); }
    case ReallocCall(off, newsize) =>
      if HasLive(v, off) { ResizeInhabited(v, LiveIndex(v, off), Align4(newsize), memSize); }
  }

  lemma {:induction false} RunInhabited(v: seq<Block>, calls: seq<Call>, memSize: nat)
    requires WellFormed(v, HEADER, memSize + HEADER) && Inhabited(v)
    ensures Inhabited(Run(v, calls, memSize))
    decreases |calls|
  {
    if calls != [] {
      StepKeeps(v, calls[0], memSize);
      StepInhabited(v, calls[0], memSize);
      RunInhabited(Step(v, calls[0], memSize), calls[1..], memSize);
    }
  }

  lemma InRange(v: seq<Block>, memSize: nat, off: nat, ext: nat)
    requires WellFormed(v, HEADER, memSize + HEADER) && Inhabited(v) && IsLive(v, off, ext)
    ensures off + HEADER < memSize + HEADER
  {
    var i: nat :| LiveAt(v, i, off, ext);
    LastOffset(v, HEADER, memSize + HEADER, i + 1);
  }

  /** Over every run no live block is empty, and no live pointer fails the range check of rt_free and rt_realloc. */
  lemma PointersInRange(calls: seq<Call>, memSize: nat, off: nat, ext: nat)
    requires memSize % 4 == 0 && IsLive(Run(Fresh(memSize), calls, memSize), off, ext)
    ensures HEADER < ext && off + HEADER < memSize + HEADER
  {
    FreshKeeps(memSize);
    FreshInhabited(memSize);
    RunKeeps(Fresh(memSize), calls, memSize);
    RunInhabited(Fresh(memSize), calls, memSize);
    InRange(Run(Fresh(memSize), calls, memSize), memSize, off, ext);
  }

  lemma FreshInhabited(memSize: nat)
    requires memSize % 4 == 0
    ensures Inhabited(Fresh(memSize))
  {
    FreshKeeps(memSize);
    NothingLiveMeansOneFreeBlock(Fresh(memSize), HEADER, memSize + HEADER);
  }

  // ----- the runs are runs of the heap -----

  /** What mem.c asks of its callers: pointers it handed out, 32-bit sizes, and a scan that ends. */
  ghost predicate Allowed(v: seq<Block>, c: Call, memSize: nat)
  {
    match c
    case AllocCall(size) => size < TWO32 && (size == 0 || Align4(size) > memSize || memSize >= MIN_SIZE)
    case FreeCall(off) => HasLive(v, off)
    case ReallocCall(off, newsize) => HasLive(v, off) && newsize < TWO32
  }

  ghost predicate IsRun(v: seq<Block>, calls: seq<Call>, memSize: nat)
    decreases |calls|
  {
    calls != [] ==> Allowed(v, calls[0], memSize) && IsRun(Step(v, calls[0], memSize), calls[1..], memSize)
  }

  /** The state of a heap between calls. */
  ghost predicate Running(h: Heap)
    reads h
  {
    h.Valid() && Inhabited(h.view)
  }

  lemma StepLiveStays(v: seq<Block>, c: Call, memSize: nat)
    requires WellFormed(v, HEADER, memSize + HEADER)
    ensures LiveStays(v, Step(v, c, memSize), c)
  {
    forall off: nat, ext: nat | !Names(c, off) && IsLive(v, off, ext) ensures IsLive(Step(v, c, memSize), off, ext) {
      StepLive(v, c, memSize, off, ext);
    }
  }

  method PerformMalloc(h: Heap, size: nat) returns (r: nat)
    requires Running(h) && Allowed(h.view, AllocCall(size), h.memSize)
    modifies h
    ensures Running(h) && h.base == old(h.base) && h.memSize == old(h.memSize) && old(h.history) <= h.history
    ensures h.view == Step(old(h.view), AllocCall(size), h.memSize)
    ensures SparesUnnamed(old(h.view), old(h.mem), h.view, h.mem, AllocCall(size), HEADER)
    ensures r == 0 <==> size == 0 || Align4(size) > h.memSize || NoFit(old(h.view), Need(size), h.memSize)
    ensures r != 0 ==> r == h.base + NewOffset(old(h.view), size, h.memSize) + HEADER && r < h.base + h.memSize + HEADER
  {
    ghost var v, m0, k := h.view, h.mem, 0;
    StepInhabited(v, AllocCall(size), h.memSize);
    r, k := h.Malloc(size);
    if r != 0 { FitIsUnique(v, k, FitIndex(v, Need(size), h.memSize), Need(size), h.memSize); }
    StepLiveStays(v, AllocCall(size), h.memSize);
    KeptSpares(v, m0, h.view, h.mem, AllocCall(size), HEADER);
  }

  lemma LiveInRange(h: Heap, off: nat)
    requires Running(h) && HasLive(h.view, off)
    ensures off < h.memSize && h.Holds(LiveIndex(h.view, off), h.base + off + HEADER)
  {
    var i := LiveIndex(h.view, off);
    assert Apart(h.view, i, HEADER);
    assert LiveAt(h.view, i, off, h.view[i + 1].off - off);
    InRange(h.view, h.memSize, off, h.view[i + 1].off - off);
  }

  method PerformFree(h: Heap, off: nat)
    requires Running(h) && Allowed(h.view, FreeCall(off), h.memSize)
    modifies h
    ensures Running(h) && h.base == old(h.base) && h.memSize == old(h.memSize) && old(h.history) <= h.history
    ensures h.view == Step(old(h.view), FreeCall(off), h.memSize)
    ensures SparesUnnamed(old(h.view), old(h.mem), h.view, h.mem, FreeCall(off), HEADER)
  {
    ghost var v, m0 := h.view, h.mem;
    StepInhabited(v, FreeCall(off), h.memSize);
    LiveInRange(h, off);
    h.Free(h.base + off + HEADER, LiveIndex(v, off));
    StepLiveStays(v, FreeCall(off), h.memSize);
    KeptSpares(v, m0, h.view, h.mem, FreeCall(off), HEADER);
  }

  method PerformRealloc(h: Heap, off: nat, newsize: nat) returns (r: nat, ghost o: nat, ghost e: nat)
    requires Running(h) && Allowed(h.view, ReallocCall(off, newsize), h.memSize)
    modifies h
    ensures Running(h) && h.base == old(h.base) && h.memSize == old(h.memSize) && old(h.history) <= h.history
    ensures h.view == Step(old(h.view), ReallocCall(off, newsize), h.memSize)
    ensures SparesUnnamed(old(h.view), old(h.mem), h.view, h.mem, ReallocCall(off, newsize), HEADER)
    // the block named: where it is now it is large enough, with every word that lies within both sizes; or it is as it was
    ensures 0 < Align4(newsize) <= h.memSize && r != 0 ==>
      r == h.base + o + HEADER && IsLive(h.view, o, e) && HEADER + Align4(newsize) <= e
    ensures 0 < Align4(newsize) <= h.memSize && r != 0 ==>
      var i, rmem := LiveIndex(old(h.view), off), h.base + off + HEADER;
      forall a: nat, b: nat ::
        (a % 4 == 0 && a in old(h.mem) && b in h.mem && rmem - h.base <= a < old(h.view)[i + 1].off
         && a - (rmem - h.base) == b - (r - h.base) < Align4(newsize)) ==> h.mem[b] == old(h.mem)[a]
    ensures 0 < Align4(newsize) && r == 0 ==> h.view == old(h.view) && h.mem == old(h.mem)
  {
    ghost var v, m0 := h.view, h.mem;
    ghost var i := LiveIndex(v, off);
    var rmem := h.base + off + HEADER;
    StepInhabited(v, ReallocCall(off, newsize), h.memSize);
    LiveInRange(h, off);
    h.ValidSays();
    assert h.Valid() && newsize < TWO32 && rmem != 0 && !h.OutOfRange(rmem);
    ghost var k;
    hide *;
    r, k, o, e := h.Realloc(rmem, newsize, i);
    ResizedIsStep(v, h.view, m0, h.mem, i, k, off, newsize, h.memSize, h.base, r);
    StillRunning(h);
  }

  lemma StillRunning(h: Heap)
    requires h.Valid() && Inhabited(h.view)
    ensures Running(h)
  {
  }

  /** What rt_realloc ensures, as a step. */
  lemma ResizedIsStep(v: seq<Block>, w: seq<Block>, m0: Memory, m1: Memory, i: nat, k: nat, off: nat, newsize: nat,
                      memSize: nat, base: nat, r: nat)
    requires WellFormed(v, HEADER, memSize + HEADER) && LiveBlock(v, i, off) && i == LiveIndex(v, off)
    requires var n := Align4(newsize);
      if n > memSize then w == v && m1 == m0
      else if n == 0 then w == Release(v, i) && KeepsOwned(m0, m1, w, HEADER)
      else Resized(v, w, m0, m1, i, k, n, memSize, base + off + HEADER, r, base)
    ensures w == Step(v, ReallocCall(off, newsize), memSize)
    ensures SparesUnnamed(v, m0, w, m1, ReallocCall(off, newsize), HEADER)
  {
    var n := Align4(newsize);
    StepLiveStays(v, ReallocCall(off, newsize), memSize);
    if w == v && m1 == m0 {
      assert KeepsOwned(m0, m1, v, HEADER);
    }
    if 0 < n <= memSize && n != Room(v, i, HEADER) && n + HEADER + MIN_SIZE >= Room(v, i, HEADER)
       && !NoFit(v, Need(n), memSize)
    {
      FitIsUnique(v, k, FitIndex(v, Need(n), memSize), Need(n), memSize);
      assert Fits(v, k, Need(n), memSize);
      MovedSpares(v, m0, w, m1, ReallocCall(off, newsize), i, memSize + HEADER, HEADER);
    } else {
      KeptSpares(v, m0, w, m1, ReallocCall(off, newsize), HEADER);
    }
  }

  /** A call on the heap makes the step that Step says, and spares what it does not name. */
  method Perform(h: Heap, c: Call)
    requires Running(h) && Allowed(h.view, c, h.memSize)
    modifies h
    ensures Running(h) && h.base == old(h.base) && h.memSize == old(h.memSize) && old(h.history) <= h.history
    ensures h.view == Step(old(h.view), c, h.memSize)
    ensures SparesUnnamed(old(h.view), old(h.mem), h.view, h.mem, c, HEADER)
  {
    match c {
      case AllocCall(size) => var _ := PerformMalloc(h, size);
      case FreeCall(off) => PerformFree(h, off);
      case ReallocCall(off, newsize) => var _, _, _ := PerformRealloc(h, off, newsize);
    }
  }

  /** Any sequence of calls on the heap is a run: the headers spell out the row of Run, lfree its lowest free block,
      used_mem its used bytes, and max_mem the most that used_mem has ever been; and what no call names is as it was. */
  method Replay(h: Heap, calls: seq<Call>)
    requires Running(h) && IsRun(h.view, calls, h.memSize)
    modifies h
    ensures Running(h) && h.base == old(h.base) && h.memSize == old(h.memSize) && old(h.history) <= h.history
    ensures h.view == Run(old(h.view), calls, h.memSize)
    ensures RunSpares(old(h.view), old(h.mem), h.view, h.mem, calls, HEADER)
    decreases |calls|
  {
    if calls == [] { return; }
    ghost var v, m0 := h.view, h.mem;
    Perform(h, calls[0]);
    ghost var u, m1 := h.view, h.mem;
    Replay(h, calls[1..]);
    RunSparesOn(v, m0, u, m1, h.view, h.mem, calls, HEADER);
  }

  /** From initialisation on: whatever was called, once nothing is live the statistics and lfree are back, too. */
  method InitAndReplay(h: Heap, beginAddr: nat, endAddr: nat, ram: nat -> nat, calls: seq<Call>) returns (ok: bool)
    requires beginAddr < TWO32 && endAddr < TWO32 && h.usedMem == 0 && h.maxMem == 0
    requires var size := endAddr / 4 * 4 - 2 * HEADER - Align4(beginAddr);
      size >= 0 ==> IsRun(Fresh(size), calls, size)
    modifies h
    ensures ok <==> endAddr / 4 * 4 > 2 * HEADER && endAddr / 4 * 4 - 2 * HEADER >= Align4(beginAddr)
    ensures ok ==> Running(h) && h.view == Run(Fresh(h.memSize), calls, h.memSize)
    ensures ok ==> h.usedMem + Total(h.view, false, 0) == h.memSize + HEADER && h.usedMem <= h.maxMem
    ensures ok && (forall off: nat, ext: nat :: !IsLive(h.view, off, ext)) ==>
      h.view == Fresh(h.memSize) && h.usedMem == 0 && h.lfree == 0
  {
    ok := h.SystemHeapInit(beginAddr, endAddr, ram);
    if !ok { return; }
    FreshInhabited(h.memSize);
    assert h.view == Fresh(h.memSize) && IsRun(Fresh(h.memSize), calls, h.memSize);
    Replay(h, calls);
    BytesConserved(calls, h.memSize);
    assert h.history[|h.history| - 1] in h.history;
    if forall off: nat, ext: nat :: !IsLive(h.view, off, ext) {
      AllFreedIsFresh(calls, h.memSize);
      LowestOfFresh(h.memSize, h.lfree);
    }
  }

  lemma LowestOfFresh(memSize: nat, o: nat)
    requires IsLowest(Fresh(memSize), o)
    ensures o == 0
  {
    var k: nat :| LowestAt(Fresh(memSize), k, o);
    assert !Fresh(memSize)[0].used;
  }

  // ----- rt_realloc while other threads call -----

  lemma {:induction false} RunAppend(v: seq<Block>, a: seq<Call>, b: seq<Call>, memSize: nat)
    ensures Run(v, a + b, memSize) == Run(Run(v, a, memSize), b, memSize)
    decreases |a|
  {
    if a == [] {
      assert a + b == b;
    } else {
      assert (a + b)[1..] == a[1..] + b;
      RunAppend(Step(v, a[0], memSize), a[1..], b, memSize);
    }
  }

  lemma MoveIsRun(v: seq<Block>, n: nat, before: seq<Call>, after: seq<Call>, s: nat, memSize: nat)
    ensures var v2 := Run(Step(v, AllocCall(n), memSize), before, memSize);
      Run(v, [AllocCall(n)] + before + after + [FreeCall(s)], memSize)
        == Step(Run(v2, after, memSize), FreeCall(s), memSize)
  {
    var a := [AllocCall(n)] + before;
    RunAppend(v, a + after, [FreeCall(s)], memSize);
    RunAppend(v, a, after, memSize);
    RunAppend(v, [AllocCall(n)], before, memSize);
    var v1 := Step(v, AllocCall(n), memSize);
    assert [AllocCall(n)][1..] == [] && Run(v1, [], memSize) == v1;
    var w := Run(v, a + after, memSize);
    assert [FreeCall(s)][1..] == [] && Run(Step(w, FreeCall(s), memSize), [], memSize) == Step(w, FreeCall(s), memSize);
  }

  /** The new block: not the old one, live, and large enough; and where its words and the old one's are. */
  lemma NewBlock(v: seq<Block>, m: Memory, memSize: nat, s: nat, size: nat, n: nat) returns (room: nat)
    requires WellFormed(v, HEADER, memSize + HEADER) && Backed(m, memSize + 2 * HEADER)
    requires IsLive(v, s, HEADER + size) && 0 < n <= memSize && n % 4 == 0 && n < TWO32
    requires !NoFit(v, Need(n), memSize)
    ensures var d := NewOffset(v, n, memSize);
      && NewPlace(v, m, s, d, Least(size, n), HEADER) && n <= room
      && IsLive(Step(v, AllocCall(n), memSize), d, HEADER + room)
  {
    var k, end := FitIndex(v, Need(n), memSize), memSize + HEADER;
    var d := v[k].off;
    assert Fits(v, k, Need(n), memSize);
    NeedFacts(n);
    AlignFacts(n);
    AllocKeeps(v, HEADER, end, k, Need(n));
    room := Room(Alloc(v, k, Need(n), HEADER), k, HEADER);
    AllocLive(v, HEADER, end, k, Need(n), d, HEADER + room);
    var i: nat :| LiveAt(v, i, s, HEADER + size);
    if d == s { IndexIsUnique(v, HEADER, end, i, k); }
    forall e: nat ensures !IsLive(v, d, e) { NotLive(v, HEADER, end, k, d, e); }
    WordsExist(v, m, HEADER, end, i, k, Least(size, n));
  }

  /** The rt_memcpy into live block `d`. */
  method CopyInto(h: Heap, d: nat, src: nat, n: nat, ghost room: nat)
    requires Running(h) && IsLive(h.view, d, HEADER + room) && n <= room
    modifies h`mem
    ensures Running(h) && IsCopy(old(h.mem), h.mem, d + HEADER, src, n)
    ensures CopySparesOthers(h.view, old(h.mem), h.mem, d, HEADER)
  {
    ghost var k: nat :| LiveAt(h.view, k, d, HEADER + room);
    var copied := MemCopy(h.mem, d + HEADER, src, n);
    CopyIsOwned(h.mem, copied, h.view, d + HEADER, src, n, k);
    forall off: nat, e: nat | off != d ensures Spared(h.view, h.mem, h.view, copied, off, e, HEADER) {
      CopySpares(h.view, HEADER, h.End(), h.mem, copied, d, room, src, n, off, e);
    }
    h.ReplaceOwned(copied);
  }

  /** The calls may be made, there is room, and they name neither of the two blocks. */
  ghost predicate Interrupts(v: seq<Block>, s: nat, n: nat, before: seq<Call>, after: seq<Call>, memSize: nat)
  {
    && !NoFit(v, Need(n), memSize)
    && Unnamed(before, s) && Unnamed(before, NewOffset(v, n, memSize))
    && Unnamed(after, s) && Unnamed(after, NewOffset(v, n, memSize))
    && var v1 := Step(v, AllocCall(n), memSize);
       IsRun(v1, before, memSize) && IsRun(Run(v1, before, memSize), after, memSize)
  }

  /** rt_malloc. */
  method AllocateFor(h: Heap, s: nat, ghost size: nat, n: nat)
    returns (dst: nat, ghost room: nat)
    requires Running(h) && IsLive(h.view, s, HEADER + size) && n % 4 == 0 && 0 < n <= h.memSize
    requires !NoFit(h.view, Need(n), h.memSize)
    modifies h
    ensures Running(h) && h.base == old(h.base) && h.memSize == old(h.memSize)
    ensures h.view == Step(old(h.view), AllocCall(n), h.memSize) && IsLive(h.view, dst, HEADER + room)
    ensures dst == NewOffset(old(h.view), n, h.memSize) && n <= room
    ensures NewPlace(old(h.view), old(h.mem), s, dst, Least(size, n), HEADER)
    ensures SparesUnnamed(old(h.view), old(h.mem), h.view, h.mem, AllocCall(n), HEADER)
  {
    room := NewBlock(h.view, h.mem, h.memSize, s, size, n);
    SizeInRange(h, s, HEADER + size, n);
    var r := PerformMalloc(h, n);
    dst := r - HEADER - h.base;
  }

  /** rt_malloc, other threads' calls, rt_memcpy. */
  method AllocateAndCopy(h: Heap, s: nat, size: nat, n: nat, before: seq<Call>)
    returns (dst: nat, ghost room: nat, ghost m2: Memory)
    requires Running(h) && IsLive(h.view, s, HEADER + size) && n % 4 == 0 && 0 < n <= h.memSize
    requires !NoFit(h.view, Need(n), h.memSize) && IsRun(Step(h.view, AllocCall(n), h.memSize), before, h.memSize)
    requires Unnamed(before, s) && Unnamed(before, NewOffset(h.view, n, h.memSize))
    modifies h
    ensures Running(h) && h.base == old(h.base) && h.memSize == old(h.memSize)
    ensures h.view == Run(Step(old(h.view), AllocCall(n), h.memSize), before, h.memSize)
    ensures dst == NewOffset(old(h.view), n, h.memSize) && n <= room
    ensures CopyMade(old(h.view), old(h.mem), h.view, m2, h.mem, s, size, dst, room, Least(size, n), HEADER)
    ensures RunSpares(old(h.view), old(h.mem), h.view, h.mem, before, HEADER)
  {
    hide Running, Heap.Valid, Run, Step, IsRun, Undisturbed, BothBacked, IsCopy, NewOffset, Spared, IsLive, Unnamed,
         CopyMade;
    hide RunSpares, SparesUnnamed, CopySparesOthers, NewPlace, Need, NoFit;
    ghost var v0, m0 := h.view, h.mem;
    dst, room := AllocateFor(h, s, size, n);
    ghost var v1, m1 := h.view, h.mem;
    Replay(h, before);
    m2 := h.mem;
    LiveInRun(v1, m1, h.view, m2, before, dst, HEADER + room, HEADER);
    CopyInto(h, dst, s + HEADER, Least(size, n), room);
    CopyIsMade(v0, m0, v1, m1, h.view, m2, h.mem, s, size, n, dst, room, Least(size, n), before, HEADER);
  }

  lemma SizeInRange(h: Heap, s: nat, ext: nat, n: nat)
    requires Running(h) && IsLive(h.view, s, ext) && 0 < n <= h.memSize && n % 4 == 0
    ensures Allowed(h.view, AllocCall(n), h.memSize) && Align4(n) == n && WellFormed(h.view, HEADER, h.memSize + HEADER)
  {
    AlignFacts(n);
  }

  /** Other threads' calls, then rt_free of the block at `s`. */
  method ReplayAndFree(h: Heap, s: nat, after: seq<Call>, ghost ext: nat)
    requires Running(h) && IsLive(h.view, s, ext) && Unnamed(after, s) && IsRun(h.view, after, h.memSize)
    modifies h
    ensures Running(h) && h.base == old(h.base) && h.memSize == old(h.memSize)
    ensures h.view == Step(Run(old(h.view), after, h.memSize), FreeCall(s), h.memSize)
    ensures FreeSpares(old(h.view), old(h.mem), h.view, h.mem, s, after, HEADER)
  {
    hide Running, Heap.Valid, IsRun, Run, Step, Unnamed, RunSpares, SparesUnnamed, FreeSpares, HasLive, IsLive;
    ghost var v3, m3 := h.view, h.mem;
    Replay(h, after);
    ghost var v4, m4 := h.view, h.mem;
    LiveInRun(v3, m3, v4, m4, after, s, ext, HEADER);
    LiveHas(v4, s, ext);
    PerformFree(h, s);
    ThenFreed(v3, m3, v4, m4, h.view, h.mem, s, after, HEADER);
  }

  /** The same, once the copy is made. */
  method FreeAfter(h: Heap, s: nat, ghost size: nat, ghost n: nat, after: seq<Call>, ghost d: nat, ghost room: nat,
                   ghost v0: seq<Block>, ghost m0: Memory, ghost m2: Memory)
    requires Running(h) && CopyMade(v0, m0, h.view, m2, h.mem, s, size, d, room, Least(size, n), HEADER) && n <= room
    requires Unnamed(after, s) && Unnamed(after, d) && IsRun(h.view, after, h.memSize)
    modifies h
    ensures Running(h) && h.base == old(h.base) && h.memSize == old(h.memSize)
    ensures h.view == Step(Run(old(h.view), after, h.memSize), FreeCall(s), h.memSize)
    ensures DataAt(m0, h.view, h.mem, s, size, n, d, room, HEADER)
    ensures FreeSpares(old(h.view), old(h.mem), h.view, h.mem, s, after, HEADER)
  {
    hide Running, Heap.Valid, IsRun, Run, Step, Unnamed, CopyMade, FreeSpares, DataAt, IsLive, Least;
    ghost var ext := HEADER + size;
    OldStaysLive(v0, m0, h.view, m2, h.mem, s, size, d, room, Least(size, n), HEADER);
    ghost var v3, m3 := h.view, h.mem;
    ReplayAndFree(h, s, after, ext);
    DataIsAt(v0, m0, v3, m2, m3, h.view, h.mem, s, size, n, d, room, after, HEADER);
  }

  lemma SourceAligned(h: Heap, s: nat, size: nat)
    requires Running(h) && IsLive(h.view, s, HEADER + size)
    ensures (s + HEADER) % 4 == 0
  {
    LivePayloadsAligned(h.view, HEADER, h.memSize + HEADER, s, HEADER + size);
  }

  /** rt_realloc's moving branch holds the lock only inside rt_malloc and rt_free.  `before` are other threads' calls
      between the allocation and the copy, `after` those between the copy and the release; they name neither the old
      block at `s` nor the new one.  The data arrives, and every block that nobody names is as it was. */
  method MoveAmongOthers(h: Heap, s: nat, size: nat, n: nat, before: seq<Call>, after: seq<Call>)
    returns (r: nat, ghost room: nat)
    requires Running(h) && IsLive(h.view, s, HEADER + size) && n % 4 == 0 && 0 < n <= h.memSize
    requires Interrupts(h.view, s, n, before, after, h.memSize)
    modifies h
    ensures Running(h) && h.base == old(h.base) && h.memSize == old(h.memSize)
    ensures h.view == Run(old(h.view), [AllocCall(n)] + before + after + [FreeCall(s)], h.memSize)
    ensures r == h.base + NewOffset(old(h.view), n, h.memSize) + HEADER
    ensures DataAt(old(h.mem), h.view, h.mem, s, size, n, NewOffset(old(h.view), n, h.memSize), room, HEADER)
    ensures BothSpare(old(h.view), old(h.mem), h.view, h.mem, s, before, after, HEADER)
    // word by word, as far as both sizes reach
    ensures forall a: nat, b: nat :: (a % 4 == 0 && a in old(h.mem) && b in h.mem && s + HEADER <= a < s + HEADER + size
                                      && a - (s + HEADER) == b - (r - h.base) < n) ==> h.mem[b] == old(h.mem)[a]
  {
    SourceAligned(h, s, size);
    hide Running, Heap.Valid, Run, Step, IsRun, NewOffset, Spared, IsLive, Unnamed, CopyMade, DataAt, RunSpares, FreeSpares;
    hide BothSpare, Need, NoFit;
    ghost var v0, m0, m2 := h.view, h.mem, h.mem;
    MoveIsRun(v0, n, before, after, s, h.memSize);
    var dst;
    dst, room, m2 := AllocateAndCopy(h, s, size, n, before);
    ghost var v3, m3 := h.view, h.mem;
    FreeAfter(h, s, size, n, after, dst, room, v0, m0, m2);
    SpareBoth(v0, m0, v3, m3, h.view, h.mem, s, before, after, HEADER);
    DataAtAddresses(m0, h.view, h.mem, s, size, n, dst, room, HEADER);
    r := h.base + dst + HEADER;
  }

  // ----- where the 32-bit arithmetic gives way -----

  /** The offsets rt_malloc's loop visits. */
  ghost function Visited(memSize: nat, n: nat): nat
  {
    if n == 0 then 0 else memSize + HEADER
  }

  /** On a heap smaller than MIN_SIZE_ALIGNED the bound `mem_size_aligned - size` wraps, and a request that
      passes the size check scans for ever: every header the loop reaches passes its guard and is refused. */
  lemma ScanNeverEnds(m: Memory, memSize: nat, size: nat, n: nat)
    requires 0 < size < TWO32 && memSize % 4 == 0 && Align4(size) <= memSize < MIN_SIZE
    requires Represents(m, Fresh(memSize))
    ensures var o := Visited(memSize, n);
      && o < Sub32(memSize, Need(size))
      && HasHeader(m, o)
      && (UsedField(m[o]) || m[o + 4] - (o + HEADER) < Need(size))
      && m[o + 4] == Visited(memSize, n + 1)
  {
    var row := Fresh(memSize);
    assert Header(m, row, 0) && Header(m, row, 1);
    TagFields(0, true);
  }
}
