/** The small-memory heap of mem.c: first-fit allocation over chained headers, with a cached
    lowest-free pointer, two-sided coalescing, in-place shrinking and usage statistics. */
module SmallHeap {
  import opened Layout
  import opened Words
  import opened LayoutLive
  import opened LayoutTotals
  import opened HeapMemory
  import HeapCalls

  // ----- the cached lowest-free pointer -----

  ghost predicate LowestAt(v: seq<Block>, k: nat, o: nat)
  {
    && k < |v| && v[k].off == o
    && (k + 1 == |v| || !v[k].used)
    && forall j: nat :: j < k ==> v[j].used
  }

  /** `o` is the lowest free block, or the sentinel when nothing is free. */
  ghost predicate IsLowest(v: seq<Block>, o: nat)
  {
    exists k: nat :: LowestAt(v, k, o)
  }

  lemma LowestAfterFree(v: seq<Block>, h: nat, end: nat, i: nat, o: nat)
    requires Tiled(v, h, end) && i + 1 < |v| && IsLowest(v, o)
    ensures IsLowest(SetUsed(v, i, false), if v[i].off < o then v[i].off else o)
  {
    var w := SetUsed(v, i, false);
    var k: nat :| LowestAt(v, k, o);
    if i < k { InOrder(v, h, i, k); assert LowestAt(w, i, v[i].off); }
    if k < i { InOrder(v, h, k, i); }
    if k <= i { assert LowestAt(w, k, o); }
  }

  lemma LowestAfterCut(v: seq<Block>, h: nat, end: nat, i: nat, size: nat, o: nat)
    requires Tiled(v, h, end) && h % 4 == 0 && i + 1 < |v| && v[i].used && IsLowest(v, o)
    requires size % 4 == 0 && size + h <= Room(v, i, h)
    ensures var n := v[i].off + h + size;
      IsLowest(Cut(v, i, size, h), if n < o then n else o)
  {
    var w := Cut(v, i, size, h);
    var k: nat :| LowestAt(v, k, o);
    var n := v[i].off + h + size;
    if i < k {
      if i + 1 < k { InOrder(v, h, i + 1, k); }
      assert LowestAt(w, i + 1, n);
    } else {
      InOrder(v, h, k, i);
      assert LowestAt(w, k, o);
    }
  }

  lemma LowestAfterPlug(v: seq<Block>, i: nat, o: nat)
    requires i + 1 < |v| && !v[i].used && IsLowest(v, o)
    ensures IsLowest(MergeNext(v, i), o) && IsLowest(Plug(v, i), o)
  {
    var k: nat :| LowestAt(v, k, o);
    assert k <= i;
    var w := MergeNext(v, i);
    assert LowestAt(w, k, o);
    if i > 0 && !w[i - 1].used { assert k <= i - 1; }
    assert LowestAt(Plug(v, i), k, o);
  }

  lemma LowestAfterAlloc(v: seq<Block>, h: nat, end: nat, i: nat, size: nat, o: nat)
    requires Tiled(v, h, end) && i + 1 < |v| && !v[i].used && IsLowest(v, o)
    ensures v[i].off != o ==> IsLowest(Alloc(v, i, size, h), o)
    ensures v[i].off == o ==> forall j: nat :: j < i ==> Alloc(v, i, size, h)[j].used
  {
    var w := Alloc(v, i, size, h);
    var k: nat :| LowestAt(v, k, o);
    if v[i].off == o { IndexIsUnique(v, h, end, i, k); }
    else { assert k < i; assert LowestAt(w, k, o); }
  }

  lemma NotLowest(v: seq<Block>, h: nat, end: nat, i: nat, j: nat, o: nat)
    requires Tiled(v, h, end) && i < j < |v| && !v[i].used && IsLowest(v, o)
    ensures o < v[j].off
  {
    var k: nat :| LowestAt(v, k, o);
    InOrder(v, h, i, j);
    if k < i { InOrder(v, h, k, i); }
  }

  lemma MergeNextOwned(v: seq<Block>, i: nat, a: nat)
    requires i < |v| && !v[i].used && Owned(v, a, HEADER)
    ensures Owned(MergeNext(v, i), a, HEADER)
  {
    var k: nat :| OwnedBy(v, k, a, HEADER);
    var w := MergeNext(v, i);
    assert OwnedBy(w, if k < i then k else k - (|v| - |w|), a, HEADER);
  }

  lemma OwnedAfterTake(v: seq<Block>, i: nat, size: nat, a: nat)
    requires i + 1 < |v| && !v[i].used && Owned(v, a, HEADER)
    ensures Owned(Cut(SetUsed(v, i, true), i, size, HEADER), a, HEADER)
  {
    var k: nat :| OwnedBy(v, k, a, HEADER);
    assert OwnedBy(Cut(SetUsed(v, i, true), i, size, HEADER), if k < i then k else k + 1, a, HEADER);
  }

  lemma OwnedAfterRelease(v: seq<Block>, end: nat, i: nat, a: nat)
    requires WellFormed(v, HEADER, end) && i + 1 < |v| && v[i].used && Owned(Release(v, i), a, HEADER)
    ensures Owned(v, a, HEADER) && Owned(SetUsed(v, i, false), a, HEADER)
  {
    var u, w := SetUsed(v, i, false), Release(v, i);
    ReleaseKeeps(v, HEADER, end, i);
    SetUsedTiled(v, HEADER, end, i, false);
    forall off: nat, ext: nat ensures IsLive(w, off, ext) ==> IsLive(v, off, ext) && IsLive(u, off, ext) {
      ReleaseLive(v, HEADER, end, i, off, ext);
      PlugLive(u, i, off, ext);
    }
    OwnedSubset(v, w, HEADER, end, a);
    OwnedSubset(u, w, HEADER, end, a);
  }

  lemma CutCoalesced(v: seq<Block>, i: nat, size: nat)
    requires Coalesced(v) && i + 1 < |v| && v[i].used
    ensures CoalescedBut(Cut(v, i, size, HEADER), i + 1)
  {
    var w := Cut(v, i, size, HEADER);
    forall k: nat | k + 1 < |w| && k != i + 1 && k + 1 != i + 1 ensures Guarded(w, k) {
      assert Guarded(v, if k < i then k else k - 1);
    }
  }

  lemma ReleaseKeepsOwned(m0: Memory, m1: Memory, m2: Memory, v: seq<Block>, end: nat, i: nat)
    requires WellFormed(v, HEADER, end) && i + 1 < |v| && v[i].used
    requires KeepsOwned(m0, m1, v, HEADER) && KeepsOwned(m1, m2, SetUsed(v, i, false), HEADER)
    ensures KeepsOwned(m0, m2, Release(v, i), HEADER)
  {
    forall a: nat | a in m0 && Owned(Release(v, i), a, HEADER) ensures m2[a] == m0[a] { OwnedAfterRelease(v, end, i, a); }
  }

  lemma PlugKeepsOwned(m0: Memory, m1: Memory, m2: Memory, v: seq<Block>, end: nat, i: nat)
    requires Tiled(v, HEADER, end) && CoalescedBut(v, i) && i + 1 < |v| && !v[i].used
    requires KeepsOwned(m0, m1, v, HEADER) && KeepsOwned(m1, m2, v, HEADER)
    ensures KeepsOwned(m0, m2, Plug(v, i), HEADER)
  {
    forall a: nat | a in m0 && Owned(Plug(v, i), a, HEADER) ensures m2[a] == m0[a] { OwnedAfterPlug(v, end, i, a); }
  }

  lemma UnguardedAt(v: seq<Block>, i: nat)
    requires Coalesced(v) && i + 1 < |v|
    ensures CoalescedBut(SetUsed(v, i, false), i)
  {
    var w := SetUsed(v, i, false);
    forall k: nat | k + 1 < |w| && k != i && k + 1 != i ensures Guarded(w, k) { assert Guarded(v, k); }
  }

  lemma OwnedAfterPlug(v: seq<Block>, end: nat, i: nat, a: nat)
    requires Tiled(v, HEADER, end) && CoalescedBut(v, i) && i + 1 < |v| && !v[i].used && Owned(Plug(v, i), a, HEADER)
    ensures Owned(v, a, HEADER)
  {
    PlugKeeps(v, HEADER, end, i);
    forall off: nat, ext: nat ensures IsLive(Plug(v, i), off, ext) ==> IsLive(v, off, ext) {
      PlugLive(v, i, off, ext);
    }
    OwnedSubset(v, Plug(v, i), HEADER, end, a);
  }

  // ----- first fit -----

  /** What rt_malloc asks of block `i`: free, roomy enough, and reached by the scan, whose bound is strict. */
  ghost predicate Fits(v: seq<Block>, i: nat, need: nat, memSize: nat)
  {
    i + 1 < |v| && !v[i].used && Room(v, i, HEADER) >= need && v[i].off < memSize - need
  }

  ghost predicate FirstFit(v: seq<Block>, i: nat, need: nat, memSize: nat)
  {
    Fits(v, i, need, memSize) && forall j: nat :: j < i ==> !Fits(v, j, need, memSize)
  }

  ghost predicate NoFit(v: seq<Block>, need: nat, memSize: nat)
  {
    forall i: nat :: !Fits(v, i, need, memSize)
  }

  /** The strict bound overlooks exactly one kind of free block: one ending at heap_end that fits exactly. */
  lemma OnlyExactTailMissed(v: seq<Block>, memSize: nat, i: nat, need: nat)
    requires WellFormed(v, HEADER, memSize + HEADER) && need <= memSize
    requires i + 1 < |v| && !v[i].used && Room(v, i, HEADER) >= need
    ensures !Fits(v, i, need, memSize) <==> i + 2 == |v| && Room(v, i, HEADER) == need
  {
    if i + 2 < |v| { InOrder(v, HEADER, i + 1, |v| - 1); }
  }

  // ----- sizes -----

  lemma FreshRow(last: nat)
    requires last >= HEADER && last % 4 == 0
    ensures var row := [Block(0, false), Block(last, true)];
      WellFormed(row, HEADER, last) && IsLowest(row, 0) && UsedBytes(row) == 0
  {
    var row := [Block(0, false), Block(last, true)];
    assert LowestAt(row, 0, 0);
    assert Apart(row, 0, HEADER) && Guarded(row, 0) && Aligned(row[0]) && Aligned(row[1]);
    assert row[1..] == [Block(last, true)];
    assert Total(row, true, 0) == Share(row, 0, true, 0) + Total(row[1..], true, 0);
  }

  /** The first free header and the sentinel. */
  method FormatMemory(ram: nat -> nat, last: nat) returns (m: Memory)
    requires last >= HEADER && last % 4 == 0
    ensures Represents(m, [Block(0, false), Block(last, true)]) && Backed(m, last + HEADER)
  {
    m := Snapshot(ram, last + HEADER);
    HeaderBacked(m, 0, last + HEADER);
    HeaderBacked(m, last, last + HEADER);
    m := PutHeader(m, 0, false, last, 0);
    m := PutHeader(m, last, true, last, last);
    FreshRowRep(m, last);
  }

  lemma FreshRowRep(m: Memory, last: nat)
    requires last >= HEADER && HasHeader(m, 0) && HasHeader(m, last)
    requires m[0] == Tag(false) && m[4] == last && m[8] == 0 && m[last] == Tag(true) && m[last + 4] == last
    ensures Represents(m, [Block(0, false), Block(last, true)])
  {
    var row := [Block(0, false), Block(last, true)];
    assert Header(m, row, 0) && Header(m, row, 1);
  }

  /** The heap.  `view` is the row of blocks the headers spell out; `history` every value `used_mem` has had. */
  class Heap {
    var mem: Memory
    var base: nat       // heap_ptr
    var memSize: nat    // mem_size_aligned
    var lfree: nat
    var usedMem: nat
    var maxMem: nat

    ghost var view: seq<Block>
    ghost var history: seq<nat>

    ghost function End(): nat
      reads this
    {
      memSize + HEADER
    }

    /** The headers in memory spell out a well-formed row. */
    ghost predicate Sound()
      reads this
    {
      && base % 4 == 0 && memSize % 4 == 0 && base + memSize + 2 * HEADER <= TWO32
      && Tiled(view, HEADER, End())
      && Represents(mem, view)
      && Backed(mem, memSize + 2 * HEADER)
    }

    ghost predicate Valid()
      reads this
    {
      && Sound()
      && Coalesced(view)
      && IsLowest(view, lfree)
      && usedMem == UsedBytes(view)
      && history != [] && history[|history| - 1] == usedMem
      && Peak(history, maxMem)
      && (memSize < MIN_SIZE ==> view == [Block(0, false), Block(End(), true)])
    }

    /** rmem is a pointer some client may pass back: block `i`'s payload. */
    ghost predicate Holds(i: nat, rmem: nat)
      reads this
    {
      i + 1 < |view| && view[i].used && rmem == base + view[i].off + HEADER && view[i].off < memSize
    }

    predicate OutOfRange(rmem: nat)
      reads this
    {
      rmem < base || rmem >= base + memSize + HEADER
    }

    /** The statistics are zero until the heap is initialised (C statics). */
    constructor ()
      ensures usedMem == 0 && maxMem == 0
    {
      usedMem, maxMem := 0, 0;
      mem, base, memSize, lfree, view, history := map[], 0, 0, 0, [], [];
    }

    /** rt_system_heap_init: `ram` is whatever the memory held before. */
    method SystemHeapInit(beginAddr: nat, endAddr: nat, ram: nat -> nat) returns (ok: bool)
      requires beginAddr < TWO32 && endAddr < TWO32 && usedMem == 0 && maxMem == 0
      modifies this
      ensures ok <==> endAddr / 4 * 4 > 2 * HEADER && endAddr / 4 * 4 - 2 * HEADER >= Align4(beginAddr)
      ensures ok ==> Valid() && view == [Block(0, false), Block(End(), true)] && maxMem == 0
      ensures ok ==> base == Align4(beginAddr) && base + memSize + 2 * HEADER == endAddr / 4 * 4
      ensures !ok ==> unchanged(this)
    {
      var beginAlign := Align4(beginAddr);
      var endAlign := endAddr / 4 * 4;
      if !(endAlign > 2 * HEADER && endAlign - 2 * HEADER >= beginAlign) { return false; }
      WriteEnds(beginAlign, endAlign - beginAlign - 2 * HEADER, ram);
      return true;
    }

    method WriteEnds(begin: nat, bytes: nat, ram: nat -> nat)
      requires begin % 4 == 0 && bytes % 4 == 0 && begin + bytes + 2 * HEADER <= TWO32
      requires usedMem == 0 && maxMem == 0
      modifies this
      ensures Valid() && base == begin && memSize == bytes && maxMem == 0
      ensures view == [Block(0, false), Block(End(), true)]
    {
      var last := bytes + HEADER;
      var m := FormatMemory(ram, last);
      ghost var row := [Block(0, false), Block(last, true)];
      FreshRow(last);
      mem, base, memSize, lfree := m, begin, bytes, 0;
      view, history := row, [0];
    }

    /** plug_holes. */
    method PlugHoles(m: nat, ghost i: nat)
      requires Sound() && CoalescedBut(view, i) && IsLowest(view, lfree)
      requires i + 1 < |view| && view[i] == Block(m, false)
      modifies this`mem, this`lfree, this`view
      ensures Sound() && view == Plug(old(view), i) && Coalesced(view)
      ensures IsLowest(view, lfree) && KeepsOwned(old(mem), mem, old(view), HEADER)
    {
      ghost var v := view;
      LowestAfterPlug(v, i, lfree);
      MergeNextKeeps(v, HEADER, End(), i);
      PlugKeeps(v, HEADER, End(), i);
      PlugForward(m, i);
      PlugBackward(m, i);
      forall a: nat | a in old(mem) && Owned(v, a, HEADER) ensures mem[a] == old(mem)[a] { MergeNextOwned(v, i, a); }
    }

    method PlugForward(m: nat, ghost i: nat)
      requires Sound() && IsLowest(view, lfree)
      requires i + 1 < |view| && view[i] == Block(m, false)
      modifies this`mem, this`lfree, this`view
      ensures Sound() && view == MergeNext(old(view), i) && lfree == old(lfree)
      ensures KeepsOwned(old(mem), mem, old(view), HEADER)
    {
      ghost var v, end := view, End();
      assert Header(mem, v, i) && Header(mem, v, i + 1) && Apart(v, i, HEADER);
      TagFields(0, v[i + 1].used);
      var nmem := mem[m + 4];
      if i + 1 < |v| - 1 { InOrder(v, HEADER, i + 1, |v| - 1); }
      if m != nmem && !UsedField(mem[nmem]) && nmem != memSize + HEADER {
        if lfree == nmem { lfree := m; }
        NotLowest(v, HEADER, end, i, i + 1, old(lfree));
        MergeInto(m, nmem, i);
      }
    }

    /** Block `i`, at `m`, swallows the block after it, at `n`. */
    method MergeInto(m: nat, n: nat, ghost i: nat)
      requires Sound() && i + 2 < |view| && view[i].off == m && view[i + 1].off == n
      modifies this`mem, this`view
      ensures Sound() && view == Swallow(old(view), i) && KeepsOwned(old(mem), mem, old(view), HEADER)
    {
      ghost var v, end := view, End();
      var m0 := mem;
      assert Header(m0, v, i) && Header(m0, v, i + 1) && Header(m0, v, i + 2);
      Separate(v, end, i, i + 2);
      SwallowTiled(v, HEADER, end, i);
      var next := m0[n + 4];
      var m1 := m0[m + 4 := next];
      m1 := m1[next + 8 := m];
      SwallowRep(m0, m1, v, end, i);
      mem := m1;
      view := Swallow(v, i);
    }

    method PlugBackward(m: nat, ghost i: nat)
      requires Sound() && IsLowest(view, lfree)
      requires i + 1 < |view| && view[i] == Block(m, false)
      modifies this`mem, this`lfree, this`view
      ensures Sound() && view == MergePrev(old(view), i) && lfree == old(lfree)
      ensures KeepsOwned(old(mem), mem, old(view), HEADER)
    {
      ghost var v := view;
      assert Header(mem, v, i) && Header(mem, v, i + 1);
      var pmem := mem[m + 8];
      if i > 0 {
        assert Header(mem, v, i - 1) && Apart(v, i - 1, HEADER);
        TagFields(0, v[i - 1].used);
      }
      if pmem != m && !UsedField(mem[pmem]) {
        if lfree == m { lfree := pmem; }
        NotLowest(v, HEADER, End(), i - 1, i, old(lfree));
        MergeInto(pmem, m, i - 1);
      }
    }

    /** Create the free header at `n` and link it in after `ptr` (the splits in rt_malloc and rt_realloc). */
    method SplitBlock(ptr: nat, n: nat, ghost i: nat, ghost size: nat)
      requires Sound() && i + 1 < |view| && view[i].off == ptr && n == ptr + HEADER + size
      requires size % 4 == 0 && size + HEADER <= Room(view, i, HEADER)
      modifies this`mem, this`view
      ensures Sound() && view == Cut(old(view), i, size, HEADER)
      ensures KeepsOwned(old(mem), mem, view, HEADER)
    {
      ghost var v, end := view, End();
      CutFinds(mem, v, end, i, size);
      var m := LinkFree(mem, memSize + HEADER, ptr, n, v[i + 1].off);
      CutLeaves(mem, m, v, end, i, size);
      mem := m;
      view := Cut(v, i, size, HEADER);
    }

    /** mem->used = used. */
    method MarkUsed(ptr: nat, used: bool, ghost i: nat)
      requires Sound() && i + 1 < |view| && view[i] == Block(ptr, !used)
      modifies this`mem, this`view
      ensures Sound() && view == SetUsed(old(view), i, used)
      ensures KeepsOwned(old(mem), mem, old(view), HEADER)
    {
      ghost var v, end := view, End();
      assert Header(mem, v, i);
      TagFields(0, used);
      var m := mem[ptr := WithUsed(mem[ptr], used)];
      SetUsedTiled(v, HEADER, end, i, used);
      SetUsedRep(mem, m, v, end, i, used);
      forall a: nat | a in m && Owned(v, a, HEADER) ensures m[a] == mem[a] { OwnedClearOfHeader(v, HEADER, end, a, i); }
      mem := m;
      view := SetUsed(v, i, used);
    }

    /** used_mem and max_mem after `used_mem` became `now`. */
    method RecordUse(now: nat)
      requires Peak(history, maxMem)
      modifies this`usedMem, this`maxMem, this`history
      ensures usedMem == now && history == old(history) + [now]
      ensures Peak(history, maxMem)
    {
      PeakAppend(history, maxMem, now);
      usedMem := now;
      if maxMem < usedMem { maxMem := usedMem; }
      history := history + [now];
    }

    /** The body of rt_malloc's loop once block `i` has been chosen. */
    method TakeBlock(ptr: nat, need: nat, ghost i: nat)
      requires Valid() && i + 1 < |view| && view[i] == Block(ptr, false)
      requires need % 4 == 0 && need <= Room(view, i, HEADER) && MIN_SIZE <= need <= memSize
      modifies this`mem, this`view, this`usedMem, this`maxMem, this`history, this`lfree
      ensures Valid() && view == Alloc(old(view), i, need, HEADER)
      ensures KeepsOwned(old(mem), mem, old(view), HEADER) && history == old(history) + [usedMem]
    {
      ghost var v, m0, end := view, mem, End();
      ghost var w := Alloc(v, i, need, HEADER);
      AllocKeeps(v, HEADER, end, i, need);
      AllocUsed(v, i, need, HEADER);
      LowestAfterAlloc(v, HEADER, end, i, need, lfree);
      assert Header(mem, v, i);
      var next := mem[ptr + 4];
      MarkUsed(ptr, true, i);
      assert KeepsOwned(m0, mem, v, HEADER);
      if next - (ptr + HEADER) >= need + HEADER + MIN_SIZE {
        ghost var u, m1 := view, mem;
        SplitBlock(ptr, ptr + HEADER + need, i, need);
        forall a: nat | a in m0 && Owned(v, a, HEADER) ensures mem[a] == m0[a] { OwnedAfterTake(v, i, need, a); }
        RecordUse(usedMem + (need + HEADER));
      } else {
        RecordUse(usedMem + (next - ptr));
      }
      if ptr == lfree { AdvanceLowest(i); }
    }

    /** Find the next free block from lfree on. */
    method AdvanceLowest(ghost i: nat)
      requires Sound() && i < |view| && view[i].off == lfree && forall j: nat :: j < i ==> view[j].used
      modifies this`lfree
      ensures IsLowest(view, lfree)
    {
      ghost var k := i;
      var lf := lfree;
      assert Header(mem, view, k);
      TagFields(0, view[k].used);
      if k < |view| - 1 { InOrder(view, HEADER, k, |view| - 1); }
      while UsedField(mem[lf]) && lf != memSize + HEADER
        invariant k < |view| && view[k].off == lf && Header(mem, view, k)
        invariant UsedField(mem[lf]) == view[k].used && (k < |view| - 1 ==> lf < End())
        invariant forall j: nat :: j < k ==> view[j].used
        decreases |view| - k
      {
        lf := mem[lf + 4];
        k := k + 1;
        assert Header(mem, view, k);
        TagFields(0, view[k].used);
        if k < |view| - 1 { InOrder(view, HEADER, k, |view| - 1); }
      }
      assert LowestAt(view, k, lf);
      lfree := lf;
    }

    /** A scan ends only if `mem_size_aligned - size` does not wrap: see ScanNeverEnds. */
    predicate CanScan(size: nat)
      reads this
    {
      size == 0 || Align4(size) > memSize || memSize >= MIN_SIZE
    }

    /** rt_malloc.  On success `k` is the block handed out. */
    method Malloc(size: nat) returns (r: nat, ghost k: nat)
      requires Valid() && size < TWO32 && CanScan(size)
      modifies this
      ensures Valid() && base == old(base) && memSize == old(memSize)
      ensures r == 0 <==> size == 0 || Align4(size) > memSize || NoFit(old(view), Need(size), memSize)
      ensures r == 0 ==> unchanged(this)
      ensures r != 0 ==>
        && Need(size) <= memSize && FirstFit(old(view), k, Need(size), memSize)
        && view == Alloc(old(view), k, Need(size), HEADER)
        && Holds(k, r) && r % 4 == 0
        && KeepsOwned(old(mem), mem, old(view), HEADER) && history == old(history) + [usedMem]
      // for the client: a free block that was large enough (see NeedIs), and the lowest such
      ensures r != 0 ==>
        && k + 1 < |view| && view[k] == Block(r - base - HEADER, true)
        && Need(size) <= view[k + 1].off - view[k].off - HEADER < Need(size) + 24
        && k + 1 < |old(view)| && old(view)[k] == Block(view[k].off, false)
        && forall j :: 0 <= j < k ==> old(view)[j].used || old(view)[j + 1].off - old(view)[j].off - HEADER < Need(size)
      // for the others: the live blocks are the old ones and the new one, and no word of theirs has changed
      ensures r != 0 ==> forall off: nat, ext: nat :: IsLive(view, off, ext) <==>
        IsLive(old(view), off, ext) || (base + off + HEADER == r && ext == view[k + 1].off - view[k].off)
      ensures r != 0 ==> forall off: nat, ext: nat, a: nat ::
        IsLive(old(view), off, ext) && off + HEADER <= a < off + ext && a in old(mem) ==> a in mem && mem[a] == old(mem)[a]
      // refused: every free block is too small, but for one that fits exactly and is the last
      ensures r == 0 && 0 < size && Align4(size) <= memSize ==>
        forall j :: 0 <= j < |view| - 1 && !view[j].used ==>
          var room := view[j + 1].off - view[j].off - HEADER; room < Need(size) || (j + 2 == |view| && room == Need(size))
    {
      hide Valid, Alloc, IsLive, KeepsOwned, NoFit, WellFormed, Represents, Coalesced;
      ValidSays();
      k := 0;
      if size == 0 { return 0, k; }
      var n := Align4(size);
      if n > memSize { return 0, k; }
      if n < MIN_SIZE { n := MIN_SIZE; }
      var found, ptr;
      found, ptr, k := Scan(n);
      if found {
        AllocKeeps(view, HEADER, End(), k, n);
        FitFacts(view, End(), k, n, memSize);
        Mod4Sum(base, ptr, HEADER);
        ghost var v, m0 := view, mem;
        TakeBlock(ptr, n, k);
        AllocForClients(v, view, m0, mem, End(), k, n, memSize);
        return base + ptr + HEADER, k;
      }
      NoFitSays(view, n, memSize);
      return 0, k;
    }

    /** rt_malloc's search from lfree up. */
    method Scan(need: nat) returns (found: bool, ptr: nat, ghost k: nat)
      requires Valid() && need <= memSize
      ensures found ==> FirstFit(view, k, need, memSize) && ptr == view[k].off
      ensures !found ==> NoFit(view, need, memSize)
    {
      k :| LowestAt(view, k, lfree);
      found, ptr := false, lfree;
      while ptr < Sub32(memSize, need)
        invariant k < |view| && view[k].off == ptr
        invariant forall j: nat :: j < k ==> !Fits(view, j, need, memSize)
        decreases |view| - k
      {
        if k == |view| - 1 { assert false; }
        assert Header(mem, view, k);
        TagFields(0, view[k].used);
        if !UsedField(mem[ptr]) && mem[ptr + 4] - (ptr + HEADER) >= need {
          return true, ptr, k;
        }
        ptr := mem[ptr + 4];
        k := k + 1;
      }
      forall j: nat ensures !Fits(view, j, need, memSize) {
        if k < j < |view| { InOrder(view, HEADER, k, j); }
      }
    }

    /** rt_free. */
    method Free(rmem: nat, ghost i: nat)
      requires Valid() && (rmem == 0 || OutOfRange(rmem) || Holds(i, rmem))
      modifies this
      ensures Valid() && base == old(base) && memSize == old(memSize) && maxMem == old(maxMem)
      ensures rmem == 0 || OutOfRange(rmem) ==> unchanged(this)
      ensures rmem != 0 && !OutOfRange(rmem) ==>
        && view == Release(old(view), i) && KeepsOwned(old(mem), mem, view, HEADER) && history == old(history) + [usedMem]
      // the block is gone; every other stays where it is, as long as it is, with every word
      ensures rmem != 0 && !OutOfRange(rmem) ==>
        forall off: nat, ext: nat :: IsLive(view, off, ext) <==> IsLive(old(view), off, ext) && base + off + HEADER != rmem
      ensures rmem != 0 && !OutOfRange(rmem) ==> forall off: nat, ext: nat, a: nat ::
        IsLive(old(view), off, ext) && base + off + HEADER != rmem && off + HEADER <= a < off + ext && a in old(mem) ==>
          a in mem && mem[a] == old(mem)[a]
    {
      if rmem == 0 { return; }
      if rmem < base || rmem >= base + memSize + HEADER { return; }
      ghost var v, m0 := view, mem;
      ReturnBlock(rmem - HEADER - base, i);
      HeapCalls.ReleaseForClients(v, HEADER, m0, mem, memSize + HEADER, i);
    }

    method ReturnBlock(m: nat, ghost i: nat)
      requires Valid() && i + 1 < |view| && view[i] == Block(m, true)
      modifies this`mem, this`view, this`lfree, this`usedMem, this`history
      ensures Valid() && view == Release(old(view), i) && KeepsOwned(old(mem), mem, view, HEADER)
      ensures history == old(history) + [usedMem]
    {
      ghost var v, m0, end := view, mem, End();
      ReleaseKeeps(v, HEADER, end, i);
      Retire(m, i);
      ghost var m1 := mem;
      PlugHoles(m, i);
      ReleaseKeepsOwned(m0, m1, mem, v, end, i);
    }

    /** Clear the used flag and settle lfree and used_mem, before the neighbours are looked at. */
    method Retire(m: nat, ghost i: nat)
      requires Valid() && i + 1 < |view| && view[i] == Block(m, true)
      modifies this`mem, this`view, this`lfree, this`usedMem, this`history
      ensures Sound() && view == SetUsed(old(view), i, false) && CoalescedBut(view, i) && IsLowest(view, lfree)
      ensures KeepsOwned(old(mem), mem, old(view), HEADER)
      ensures usedMem == UsedBytes(Release(old(view), i)) <= old(usedMem)
      ensures history == old(history) + [usedMem] && Peak(history, maxMem)
    {
      ghost var v, end := view, End();
      LowestAfterFree(v, HEADER, end, i, lfree);
      UnguardedAt(v, i);
      assert Header(mem, v, i);
      GiveBack(mem[m + 4] - m, i);
      MarkUsed(m, false, i);
      if m < lfree { lfree := m; }
    }

    /** used_mem -= the block's extent. */
    method GiveBack(ext: int, ghost i: nat)
      requires Valid() && i + 1 < |view| && view[i].used && ext == HEADER + Room(view, i, HEADER)
      modifies this`usedMem, this`history
      ensures usedMem == UsedBytes(Release(view, i)) <= old(usedMem)
      ensures history == old(history) + [usedMem] && Peak(history, maxMem)
    {
      ReleaseUsed(view, i, HEADER);
      ReleaseKeeps(view, HEADER, End(), i);
      TotalNonNegative(Release(view, i), HEADER, true, 0);
      assert Apart(view, i, HEADER);
      assert usedMem in history;
      PeakAppend(history, maxMem, usedMem - ext);
      usedMem := usedMem - ext;
      history := history + [usedMem];
    }

    /** rt_realloc's in-place split. */
    method ShrinkBlock(ptr: nat, n: nat, ghost i: nat)
      requires Valid() && i + 1 < |view| && view[i] == Block(ptr, true)
      requires n % 4 == 0 && 0 < n && n + HEADER + MIN_SIZE < Room(view, i, HEADER)
      modifies this`mem, this`view, this`lfree, this`usedMem, this`history
      ensures Valid() && view == Shrink(old(view), i, n, HEADER) && KeepsOwned(old(mem), mem, view, HEADER)
      ensures history == old(history) + [usedMem]
    {
      hide Plug, UsedBytes, Owned;
      ghost var m0, end := mem, End();
      CutOff(ptr, n, i);
      ghost var u, m1 := view, mem;
      PlugHoles(ptr + HEADER + n, i + 1);
      PlugKeepsOwned(m0, m1, mem, u, end, i + 1);
    }

    method CutOff(ptr: nat, n: nat, ghost i: nat)
      requires Valid() && i + 1 < |view| && view[i] == Block(ptr, true)
      requires n % 4 == 0 && 0 < n && n + HEADER + MIN_SIZE < Room(view, i, HEADER)
      modifies this`mem, this`view, this`lfree, this`usedMem, this`history
      ensures Sound() && view == Cut(old(view), i, n, HEADER) && CoalescedBut(view, i + 1) && IsLowest(view, lfree)
      ensures KeepsOwned(old(mem), mem, view, HEADER)
      ensures usedMem == UsedBytes(Shrink(old(view), i, n, HEADER))
      ensures history == old(history) + [usedMem] && Peak(history, maxMem)
    {
      ghost var v, end := view, End();
      assert Header(mem, v, i);
      LessUse(mem[ptr + 4] - ptr - HEADER - n, i, n);
      var ptr2 := ptr + HEADER + n;
      LowestAfterCut(v, HEADER, end, i, n, lfree);
      CutCoalesced(v, i, n);
      SplitBlock(ptr, ptr2, i, n);
      if ptr2 < lfree { lfree := ptr2; }
    }

    /** used_mem -= size - newsize. */
    method LessUse(cut: nat, ghost i: nat, ghost n: nat)
      requires Valid() && i + 1 < |view| && view[i].used && cut + n == Room(view, i, HEADER)
      requires n % 4 == 0 && n + HEADER <= Room(view, i, HEADER)
      modifies this`usedMem, this`history
      ensures usedMem == UsedBytes(Shrink(view, i, n, HEADER))
      ensures history == old(history) + [usedMem] && Peak(history, maxMem)
    {
      ShrinkUsed(view, i, n, HEADER);
      ShrinkKeeps(view, HEADER, End(), i, n);
      TotalNonNegative(Shrink(view, i, n, HEADER), HEADER, true, 0);
      assert usedMem in history;
      PeakAppend(history, maxMem, usedMem - cut);
      usedMem := usedMem - cut;
      history := history + [usedMem];
    }

    /** rt_realloc when the block cannot be resized in place: allocate, copy, free. */
    method MoveBlock(rmem: nat, size: nat, n: nat, ghost i: nat) returns (r: nat, ghost k: nat)
      requires Valid() && Holds(i, rmem) && size == Room(view, i, HEADER)
      requires n % 4 == 0 && 0 < n <= memSize
      modifies this
      ensures Valid() && base == old(base) && memSize == old(memSize) && old(history) <= history
      ensures r == 0 ==> unchanged(this) && NoFit(view, Need(n), memSize)
      ensures r != 0 ==> MovedTo(old(view), view, old(mem), mem, i, k, n, memSize, r - base)
      // every word that lies within both sizes is there, and the old block is gone
      ensures r != 0 ==>
        && r >= base
        && (forall a: nat, b: nat ::
              (a % 4 == 0 && a in old(mem) && b in mem && rmem - base <= a < old(view)[i + 1].off
               && a - (rmem - base) == b - (r - base) < n) ==> mem[b] == old(mem)[a])
        && forall ext: nat :: !IsLive(view, old(view)[i].off, ext)
    {
      hide Valid, Tiled, Represents, Backed, Coalesced, UsedBytes, IsLowest, Peak, KeepsOwned, MovedTo, WordMoved, IsLive,
           Align4, NoFit, Alloc;
      ghost var v, m0 := view, mem;
      ValidSays();
      HoldsSays(rmem, i);
      AlignedIs(n);
      ghost var end := End();
      r, k := Malloc(n);
      if r == 0 { return; }
      assert Fits(v, k, Need(n), memSize);
      MovedIndex(v, HEADER, end, i, k, Need(n));
      Relocate(r - base, rmem - base, size, n, v, m0, i, k);
      NeedCovers(n);
      ghost var e := MoveForClients(v, view, m0, mem, end, i, k, n, memSize, r - base);
      HeapCalls.DataInPlace(m0, mem, v, HEADER, i, r - base, n);
    }

    /** Block `k` of row `v` has just been allocated for block `i`'s data. */
    method Relocate(d: nat, s: nat, size: nat, n: nat, ghost v: seq<Block>, ghost m0: Memory, ghost i: nat, ghost k: nat)
      requires Valid() && WellFormed(v, HEADER, End()) && Backed(m0, End() + HEADER)
      requires i + 1 < |v| && v[i].used && s == v[i].off + HEADER && size == Room(v, i, HEADER)
      requires n % 4 == 0 && 0 < n && n <= Need(n) <= memSize && FirstFit(v, k, Need(n), memSize)
      requires d == v[k].off + HEADER && view == Alloc(v, k, Need(n), HEADER) && KeepsOwned(m0, mem, v, HEADER)
      requires Holds(k, base + d) && n <= Room(view, k, HEADER)
      requires Holds(ShiftedIndex(v, i, k, Need(n), HEADER), base + s)
      modifies this
      ensures Valid() && base == old(base) && memSize == old(memSize) && old(history) <= history
      ensures MovedTo(v, view, m0, mem, i, k, n, memSize, d)
    {
      ghost var u, m1, i1 := view, mem, ShiftedIndex(v, i, k, Need(n), HEADER);
      ghost var end := End();
      var count := if size < n then size else n;
      ghost var m2 := CopyThenFree(d, s, count, k, i1);
      ghost var w, m3, ms := view, mem, memSize;
      MoveIsMovedTo(v, u, i1, w, m0, m1, m2, m3, end, i, k, n, ms, d, s, count);
    }

    /** The rt_memcpy of `n` bytes from offset `s` to offset `d`, then rt_free of the source. */
    method CopyThenFree(d: nat, s: nat, n: nat, ghost k: nat, ghost i: nat) returns (ghost m: Memory)
      requires Valid() && Holds(k, base + d) && n <= Room(view, k, HEADER) && Holds(i, base + s)
      modifies this
      ensures Valid() && base == old(base) && memSize == old(memSize)
      ensures view == Release(old(view), i) && history == old(history) + [usedMem]
      ensures IsCopy(old(mem), m, d, s, n) && KeepsOwned(m, mem, view, HEADER)
    {
      var copied := MemCopy(mem, d, s, n);
      m := copied;
      CopyIsOwned(mem, m, view, d, s, n, k);
      ReplaceOwned(copied);
      Free(base + s, i);
    }

    /** Clients overwrite words of their own blocks. */
    method ReplaceOwned(m: Memory)
      requires Valid() && OnlyOwnedChange(mem, m, view)
      modifies this`mem
      ensures Valid() && mem == m
    {
      OwnedWritesRep(mem, m, view, End());
      mem := m;
    }

    /** A client writes a word of its own block: no header and no other client is affected. */
    method ClientWrite(addr: nat, x: nat, ghost k: nat)
      requires Valid() && addr >= base && OwnedBy(view, k, addr - base, HEADER) && addr - base in mem
      modifies this`mem
      ensures Valid() && mem == old(mem)[addr - base := x]
    {
      ReplaceOwned(mem[addr - base := x]);
    }

    /** rt_memory_info. */
    method MemoryInfo() returns (total: nat, used: nat, maxUsed: nat)
      requires Valid()
      ensures total == memSize && used == UsedBytes(view) && Peak(history, maxUsed)
      ensures used + Total(view, false, 0) == total + HEADER
    {
      UsedPlusFree(view);
      return memSize, usedMem, maxMem;
    }

    /** rt_realloc.  `i` is the block behind `rmem`; `k` the block found when the data has to move, and `o` and `e`
        the offset and the extent of the block behind the pointer returned. */
    method Realloc(rmem: nat, newsize: nat, ghost i: nat) returns (r: nat, ghost k: nat, ghost o: nat, ghost e: nat)
      requires Valid() && newsize < TWO32 && (rmem == 0 || OutOfRange(rmem) || Holds(i, rmem))
      requires rmem == 0 && Align4(newsize) != 0 ==> CanScan(newsize)
      modifies this
      ensures Valid() && base == old(base) && memSize == old(memSize) && old(history) <= history
      // too large: nothing happens.  Size 0 (or wrapped to 0): the block is freed.
      ensures Align4(newsize) > memSize ==> r == 0 && unchanged(this)
      ensures Align4(newsize) == 0 ==> r == 0 && (rmem == 0 || old(OutOfRange(rmem)) ==> unchanged(this))
      ensures Align4(newsize) == 0 && rmem != 0 && !old(OutOfRange(rmem)) ==>
        view == Release(old(view), i) && KeepsOwned(old(mem), mem, view, HEADER)
      // a null pointer asks for a fresh block; a foreign one is handed back
      ensures 0 < Align4(newsize) <= memSize && rmem == 0 ==>
        && (r == 0 <==> NoFit(old(view), Need(newsize), memSize))
        && (r == 0 ==> unchanged(this))
        && (r != 0 ==> Holds(k, r) && k + 1 < |old(view)| && view == Alloc(old(view), k, Need(newsize), HEADER)
                       && KeepsOwned(old(mem), mem, old(view), HEADER))
      ensures 0 < Align4(newsize) <= memSize && rmem != 0 && old(OutOfRange(rmem)) ==> r == rmem && unchanged(this)
      // a live block is kept, shortened in place, or moved; or nothing fits and it stays as it was
      ensures 0 < Align4(newsize) <= memSize && rmem != 0 && !old(OutOfRange(rmem)) ==>
        Resized(old(view), view, old(mem), mem, i, k, Align4(newsize), old(memSize), rmem, r, base)
      ensures r == 0 && Align4(newsize) != 0 ==> unchanged(this)
      // for the client: whenever a live block was asked for and a pointer comes back, it points to a live block that is
      // large enough, and every word is there that lies within both sizes
      ensures 0 < Align4(newsize) <= memSize && rmem != 0 && !old(OutOfRange(rmem)) && r != 0 ==>
        r == base + o + HEADER && IsLive(view, o, e) && HEADER + Align4(newsize) <= e
      ensures 0 < Align4(newsize) <= memSize && rmem != 0 && !old(OutOfRange(rmem)) && r != 0 ==>
        forall a: nat, b: nat ::
          (a % 4 == 0 && a in old(mem) && b in mem && rmem - base <= a < old(view)[i + 1].off
           && a - (rmem - base) == b - (r - base) < Align4(newsize)) ==> mem[b] == old(mem)[a]
      // for the others: their blocks stay where they are, as long as they are, with every word
      ensures 0 < Align4(newsize) <= memSize && rmem != 0 && !old(OutOfRange(rmem)) && r != 0 ==>
        forall off: nat, ext: nat :: IsLive(old(view), off, ext) && off != old(view)[i].off ==> IsLive(view, off, ext)
      ensures 0 < Align4(newsize) <= memSize && rmem != 0 && !old(OutOfRange(rmem)) && r != 0 ==>
        forall off: nat, ext: nat, a: nat ::
          IsLive(old(view), off, ext) && off != old(view)[i].off && off + HEADER <= a < off + ext && a in old(mem) ==>
            a in mem && mem[a] == old(mem)[a]
      // and a block that moved is gone
      ensures 0 < Align4(newsize) <= memSize && rmem != 0 && !old(OutOfRange(rmem)) && r != 0 && r != rmem ==>
        forall ext: nat :: !IsLive(view, old(view)[i].off, ext)
    {
      hide Valid, KeepsOwned, Release, Resized, IsLive, NoFit, Alloc, WellFormed, Backed, WordMoved;
      k, o, e := 0, 0, 0;
      var n := Align4(newsize);
      if n > memSize { return 0, k, o, e; }
      if n == 0 { Free(rmem, i); return 0, k, o, e; }
      if rmem == 0 { AlignTwice(newsize); r, k := Malloc(n); return; }
      if rmem < base || rmem >= base + memSize + HEADER { return rmem, k, o, e; }
      ghost var v0, m0 := view, mem;
      ValidSays();
      HoldsSays(rmem, i);
      NeedOfAligned(newsize);
      r, k := Resize(rmem, n, i);
      if r != 0 {
        o, e := ResizedForClients(v0, view, m0, mem, memSize + HEADER, i, k, n, memSize, base, r);
        HeapCalls.DataInPlace(m0, mem, v0, HEADER, i, r - base, n);
      }
    }

    lemma ValidSays()
      requires Valid()
      ensures WellFormed(view, HEADER, memSize + HEADER) && Backed(mem, memSize + 2 * HEADER)
      ensures base % 4 == 0 && memSize % 4 == 0 && base + memSize + 2 * HEADER <= TWO32
    {
    }

    lemma HoldsSays(rmem: nat, i: nat)
      requires Valid() && Holds(i, rmem)
      ensures i + 1 < |view| && view[i].used && rmem == base + view[i].off + HEADER && view[i].off % 4 == 0
      ensures memSize >= MIN_SIZE
    {
      assert Aligned(view[i]);
    }

    /** The rest of rt_realloc, for a live block and a size that is not 0. */
    method Resize(rmem: nat, n: nat, ghost i: nat) returns (r: nat, ghost k: nat)
      requires Valid() && Holds(i, rmem) && n % 4 == 0 && 0 < n <= memSize
      modifies this
      ensures Valid() && base == old(base) && memSize == old(memSize) && old(history) <= history
      ensures Resized(old(view), view, old(mem), mem, i, k, n, memSize, rmem, r, base)
      ensures r == 0 ==> unchanged(this)
    {
      hide Peak, UsedBytes, IsLowest, KeepsOwned, Release, Shrink, DataMoved, Moved;
      k := 0;
      var ptr := rmem - HEADER - base;
      assert Header(mem, view, i) && Apart(view, i, HEADER) && Aligned(view[i]) && Aligned(view[i + 1]);
      var size := mem[ptr + 4] - ptr - HEADER;
      if size == n { return rmem, k; }
      if n + HEADER + MIN_SIZE < size {
        ShrinkBlock(ptr, n, i);
        return rmem, k;
      }
      r, k := MoveBlock(rmem, size, n, i);
    }
  }

  lemma CopyIsOwned(m: Memory, r: Memory, v: seq<Block>, dst: nat, src: nat, n: nat, k: nat)
    requires k + 1 < |v| && v[k].used && dst == v[k].off + HEADER && n <= Room(v, k, HEADER)
    requires IsCopy(m, r, dst, src, n)
    ensures OnlyOwnedChange(m, r, v)
  {
    forall a: nat | a in m ensures !Owned(v, a, HEADER) ==> r[a] == m[a] {
      assert a < dst || dst + n <= a ==> SameAt(m, r, a);
      if dst <= a < dst + n { assert OwnedBy(v, k, a, HEADER); }
    }
  }

  /** Across allocate, copy and free, the first `n` bytes arrive and every other client keeps its words. */
  lemma MoveKeepsData(v: seq<Block>, m0: Memory, m1: Memory, m2: Memory, m3: Memory,
                      end: nat, i: nat, k: nat, need: nat, n: nat, d: nat, s: nat)
    requires WellFormed(v, HEADER, end) && Backed(m0, end + HEADER)
    requires i + 1 < |v| && v[i].used && n <= Room(v, i, HEADER)
    requires k + 1 < |v| && !v[k].used && need % 4 == 0 && n <= need <= Room(v, k, HEADER)
    requires KeepsOwned(m0, m1, v, HEADER)
    requires d == v[k].off + HEADER && s == v[i].off + HEADER && IsCopy(m1, m2, d, s, n)
    requires KeepsOwned(m2, m3, Moved(v, i, k, need), HEADER)
    ensures DataMoved(v, m0, m3, i, k, n)
  {
    forall a: nat | a in m0 && Owned(v, a, HEADER) && !OwnedBy(v, i, a, HEADER) ensures m3[a] == m0[a] {
      OthersSurviveMove(v, end, i, k, need, a);
      assert SameAt(m1, m2, a);
    }
    forall o: nat | o < n && o % 4 == 0 ensures WordMoved(m0, m3, v[i].off + HEADER, v[k].off + HEADER, o) {
      WordSurvivesMove(v, m0, m1, m2, m3, end, i, k, need, n, d, s, o);
    }
  }

  lemma WordSurvivesMove(v: seq<Block>, m0: Memory, m1: Memory, m2: Memory, m3: Memory,
                         end: nat, i: nat, k: nat, need: nat, n: nat, d: nat, s: nat, o: nat)
    requires WellFormed(v, HEADER, end) && Backed(m0, end + HEADER)
    requires i + 1 < |v| && v[i].used && n <= Room(v, i, HEADER)
    requires k + 1 < |v| && !v[k].used && need % 4 == 0 && n <= need <= Room(v, k, HEADER)
    requires KeepsOwned(m0, m1, v, HEADER)
    requires d == v[k].off + HEADER && s == v[i].off + HEADER && IsCopy(m1, m2, d, s, n)
    requires KeepsOwned(m2, m3, Moved(v, i, k, need), HEADER)
    requires o < n && o % 4 == 0
    ensures WordMoved(m0, m3, s, d, o)
  {
    hide Moved;
    PayloadWord(m0, v, HEADER, end, i, o);
    PayloadWord(m0, v, HEADER, end, k, o);
    assert OwnedBy(v, i, s + o, HEADER);
    NewDataSurvivesMove(v, end, i, k, need, d + o);
    var from, to := s + o, d + o;
    assert Owned(v, from, HEADER);
    assert m1[from] == m0[from];
    assert m3[to] == m2[to];
    assert CopiedAt(m1, m2, d, s, o);
  }

  lemma MoveIsMovedTo(v: seq<Block>, u: seq<Block>, i1: nat, w: seq<Block>, m0: Memory, m1: Memory, m2: Memory, m3: Memory,
                      end: nat, i: nat, k: nat, n: nat, memSize: nat, d: nat, s: nat, count: nat)
    requires end == memSize + HEADER && WellFormed(v, HEADER, end) && Backed(m0, end + HEADER)
    requires i + 1 < |v| && v[i].used
    requires n % 4 == 0 && 0 < n && Need(n) <= memSize && n <= Need(n)
    requires FirstFit(v, k, Need(n), memSize)
    requires d == v[k].off + HEADER && s == v[i].off + HEADER
    requires u == Alloc(v, k, Need(n), HEADER) && i1 == ShiftedIndex(v, i, k, Need(n), HEADER)
    requires w == Release(u, i1)
    requires KeepsOwned(m0, m1, v, HEADER)
    requires count == Count(v, i, n) && IsCopy(m1, m2, d, s, count) && KeepsOwned(m2, m3, w, HEADER)
    ensures MovedTo(v, w, m0, m3, i, k, n, memSize, d)
  {
    assert w == Moved(v, i, k, Need(n));
    assert Apart(v, i, HEADER);
    NeedFacts(n);
    assert Fits(v, k, Need(n), memSize);
    MoveKeepsData(v, m0, m1, m2, m3, end, i, k, Need(n), count, d, s);
  }

  /** Block `i`'s data now lives in block `k` at offset `d`, and block `i` is free. */
  ghost predicate MovedTo(v: seq<Block>, w: seq<Block>, m0: Memory, m1: Memory, i: nat, k: nat,
                          n: nat, memSize: nat, d: int)
    requires i + 1 < |v|
  {
    && Need(n) <= memSize && FirstFit(v, k, Need(n), memSize)
    && d == v[k].off + HEADER
    && w == Moved(v, i, k, Need(n))
    && DataMoved(v, m0, m1, i, k, Count(v, i, n))
  }

  /** Bytes rt_realloc copies. */
  ghost function Count(v: seq<Block>, i: nat, n: nat): nat
    requires i + 1 < |v|
  {
    if 0 <= Room(v, i, HEADER) < n then Room(v, i, HEADER) else n
  }

  /** A block other than `i` that is live before the move is live after it. */
  lemma LiveSurvivesMove(v: seq<Block>, end: nat, i: nat, k: nat, need: nat, off: nat, ext: nat)
    requires WellFormed(v, HEADER, end) && i + 1 < |v| && v[i].used
    requires k + 1 < |v| && !v[k].used && need % 4 == 0 && need <= Room(v, k, HEADER)
    ensures var u := Alloc(v, k, need, HEADER);
      k + 1 < |u| && (IsLive(Moved(v, i, k, need), off, ext) <==>
        off != v[i].off && (IsLive(v, off, ext) || (off == v[k].off && ext == HEADER + Room(u, k, HEADER))))
  {
    var u := Alloc(v, k, need, HEADER);
    MovedIndex(v, HEADER, end, i, k, need);
    AllocLive(v, HEADER, end, k, need, off, ext);
    ReleaseLive(u, HEADER, end, ShiftedIndex(v, i, k, need, HEADER), off, ext);
  }

  lemma OthersSurviveMove(v: seq<Block>, end: nat, i: nat, k: nat, need: nat, a: nat)
    requires WellFormed(v, HEADER, end) && i + 1 < |v| && v[i].used
    requires k + 1 < |v| && !v[k].used && need % 4 == 0 && need <= Room(v, k, HEADER)
    requires Owned(v, a, HEADER) && !OwnedBy(v, i, a, HEADER)
    ensures a < v[k].off || v[k + 1].off <= a
    ensures Owned(Moved(v, i, k, need), a, HEADER)
  {
    NotInFreeBlock(v, HEADER, end, k, a);
    var j: nat :| OwnedBy(v, j, a, HEADER);
    var off, ext := v[j].off, v[j + 1].off - v[j].off;
    assert LiveAt(v, j, off, ext);
    if off == v[i].off { IndexIsUnique(v, HEADER, end, i, j); }
    LiveSurvivesMove(v, end, i, k, need, off, ext);
    LiveIsOwned(Moved(v, i, k, need), HEADER, off, ext, a);
  }

  lemma NewDataSurvivesMove(v: seq<Block>, end: nat, i: nat, k: nat, need: nat, a: nat)
    requires WellFormed(v, HEADER, end) && i + 1 < |v| && v[i].used
    requires k + 1 < |v| && !v[k].used && need % 4 == 0 && need <= Room(v, k, HEADER)
    requires v[k].off + HEADER <= a < v[k].off + HEADER + need
    ensures Owned(Moved(v, i, k, need), a, HEADER)
  {
    var u := Alloc(v, k, need, HEADER);
    AllocKeeps(v, HEADER, end, k, need);
    var ext := HEADER + Room(u, k, HEADER);
    if v[k].off == v[i].off { IndexIsUnique(v, HEADER, end, i, k); }
    LiveSurvivesMove(v, end, i, k, need, v[k].off, ext);
    LiveIsOwned(Moved(v, i, k, need), HEADER, v[k].off, ext, a);
  }

  /** What rt_realloc did to live block `i` of row `v`, asked for `n` bytes (aligned, not 0). */
  ghost predicate Resized(v: seq<Block>, w: seq<Block>, m0: Memory, m1: Memory, i: nat, k: nat,
                          n: nat, memSize: nat, rmem: nat, r: nat, base: nat)
    requires i + 1 < |v|
  {
    var size := Room(v, i, HEADER);
    if size == n then r == rmem && w == v && m1 == m0
    else if n + HEADER + MIN_SIZE < size then
      r == rmem && w == Shrink(v, i, n, HEADER) && KeepsOwned(m0, m1, w, HEADER)
    else if NoFit(v, Need(n), memSize) then r == 0 && w == v && m1 == m0
    else MovedTo(v, w, m0, m1, i, k, n, memSize, r - base)
  }

  // ----- what the clients see -----

  lemma FitFacts(v: seq<Block>, end: nat, k: nat, need: nat, memSize: nat)
    requires WellFormed(v, HEADER, end) && FirstFit(v, k, need, memSize)
    ensures v[k].off % 4 == 0 && !NoFit(v, need, memSize)
  {
    assert Aligned(v[k]);
  }

  lemma AllocForClients(v: seq<Block>, w: seq<Block>, m0: Memory, m1: Memory, end: nat, k: nat, need: nat, memSize: nat)
    requires WellFormed(v, HEADER, end) && need % 4 == 0 && need <= memSize && end == memSize + HEADER
    requires FirstFit(v, k, need, memSize) && w == Alloc(v, k, need, HEADER) && KeepsOwned(m0, m1, v, HEADER)
    ensures k + 1 < |w| && w[k] == Block(v[k].off, true) && need <= w[k + 1].off - w[k].off - HEADER < need + 24
    ensures k + 1 < |v| && !v[k].used
    ensures forall j :: 0 <= j < k ==> v[j].used || v[j + 1].off - v[j].off - HEADER < need
    ensures forall off: nat, ext: nat :: IsLive(w, off, ext) <==>
      IsLive(v, off, ext) || (off == v[k].off && ext == w[k + 1].off - w[k].off)
    ensures forall off: nat, ext: nat, a: nat ::
      IsLive(v, off, ext) && off + HEADER <= a < off + ext && a in m0 ==> a in m1 && m1[a] == m0[a]
  {
    assert Fits(v, k, need, memSize);
    AllocKeeps(v, HEADER, end, k, need);
    forall off: nat, ext: nat ensures IsLive(w, off, ext) <==>
      IsLive(v, off, ext) || (off == v[k].off && ext == w[k + 1].off - w[k].off)
    {
      AllocLive(v, HEADER, end, k, need, off, ext);
    }
    forall j | 0 <= j < k ensures v[j].used || v[j + 1].off - v[j].off - HEADER < need {
      assert !Fits(v, j, need, memSize);
      if !v[j].used && Room(v, j, HEADER) >= need { OnlyExactTailMissed(v, memSize, j, need); }
    }
    HeapCalls.KeptForClients(m0, m1, v, HEADER);
  }

  lemma NoFitSays(v: seq<Block>, need: nat, memSize: nat)
    requires WellFormed(v, HEADER, memSize + HEADER) && NoFit(v, need, memSize)
    ensures forall j :: 0 <= j < |v| - 1 && !v[j].used ==>
      var room := v[j + 1].off - v[j].off - HEADER; room < need || (j + 2 == |v| && room == need)
  {
    forall j | 0 <= j < |v| - 1 && !v[j].used
      ensures var room := v[j + 1].off - v[j].off - HEADER; room < need || (j + 2 == |v| && room == need)
    {
      assert !Fits(v, j, need, memSize);
      if Room(v, j, HEADER) >= need {
        LastOffset(v, HEADER, memSize + HEADER, j + 1);
        OnlyExactTailMissed(v, memSize, j, need);
      }
    }
  }

  lemma MoveForClients(v: seq<Block>, w: seq<Block>, m0: Memory, m1: Memory, end: nat, i: nat, k: nat, n: nat, memSize: nat,
                       d: nat) returns (e: nat)
    requires WellFormed(v, HEADER, end) && Backed(m0, end + HEADER) && i + 1 < |v| && v[i].used
    requires n % 4 == 0 && 0 < n && n <= Need(n) && MovedTo(v, w, m0, m1, i, k, n, memSize, d)
    ensures d >= HEADER && IsLive(w, d - HEADER, e) && HEADER + n <= e
    ensures forall o: nat :: o % 4 == 0 && o < Room(v, i, HEADER) && o < n ==> WordMoved(m0, m1, v[i].off + HEADER, d, o)
    ensures d != v[i].off + HEADER && forall ext: nat :: !IsLive(w, v[i].off, ext)
    ensures forall off: nat, ext: nat :: IsLive(v, off, ext) && off != v[i].off ==> IsLive(w, off, ext)
  {
    var u := Alloc(v, k, Need(n), HEADER);
    NeedFacts(n);
    assert Fits(v, k, Need(n), memSize);
    AllocKeeps(v, HEADER, end, k, Need(n));
    if v[k].off == v[i].off { IndexIsUnique(v, HEADER, end, i, k); }
    forall off: nat, ext: nat
      ensures IsLive(w, off, ext) <==>
        off != v[i].off && (IsLive(v, off, ext) || (off == v[k].off && ext == HEADER + Room(u, k, HEADER)))
    {
      LiveSurvivesMove(v, end, i, k, Need(n), off, ext);
    }
    e := HEADER + Room(u, k, HEADER);
    assert IsLive(w, v[k].off, e);
  }

  lemma StaysForClients(m: Memory, v: seq<Block>, end: nat, i: nat)
    requires WellFormed(v, HEADER, end) && Backed(m, end + HEADER) && i + 1 < |v| && v[i].used
    ensures Room(v, i, HEADER) >= 0 && IsLive(v, v[i].off, HEADER + Room(v, i, HEADER))
    ensures forall a: nat :: a % 4 == 0 && a < Room(v, i, HEADER) ==>
      WordMoved(m, m, v[i].off + HEADER, v[i].off + HEADER, a)
  {
    assert Apart(v, i, HEADER) && LiveAt(v, i, v[i].off, v[i + 1].off - v[i].off);
    forall a: nat | a % 4 == 0 && a < Room(v, i, HEADER) ensures WordMoved(m, m, v[i].off + HEADER, v[i].off + HEADER, a) {
      PayloadWord(m, v, HEADER, end, i, a);
    }
  }

  /** Whatever rt_realloc did, if it returned a pointer: it points to a live block that is large enough and holds the old
      data as far as both sizes reach; the other live blocks are as they were; and if the block moved, the old one is
      gone. */
  lemma ResizedForClients(v: seq<Block>, w: seq<Block>, m0: Memory, m1: Memory, end: nat, i: nat, k: nat, n: nat,
                          memSize: nat, base: nat, r: nat) returns (o: nat, e: nat)
    requires WellFormed(v, HEADER, end) && Backed(m0, end + HEADER) && i + 1 < |v| && v[i].used && r != 0
    requires n % 4 == 0 && 0 < n <= Need(n) && Resized(v, w, m0, m1, i, k, n, memSize, base + v[i].off + HEADER, r, base)
    ensures r == base + o + HEADER && IsLive(w, o, e) && HEADER + n <= e
    ensures forall a: nat :: a % 4 == 0 && a < Room(v, i, HEADER) && a < n ==>
      WordMoved(m0, m1, v[i].off + HEADER, r - base, a)
    ensures forall off: nat, ext: nat :: IsLive(v, off, ext) && off != v[i].off ==> IsLive(w, off, ext)
    ensures forall off: nat, ext: nat, a: nat ::
      IsLive(v, off, ext) && off != v[i].off && off + HEADER <= a < off + ext && a in m0 ==> a in m1 && m1[a] == m0[a]
    ensures r != base + v[i].off + HEADER ==> forall ext: nat :: !IsLive(w, v[i].off, ext)
  {
    hide LiveAt, IsLive, WordMoved, Backed, KeepsOwned, Shrink, NoFit, Need, Coalesced, OthersKept;
    var size := Room(v, i, HEADER);
    if size == n {
      o, e := v[i].off, HEADER + n;
      StaysForClients(m0, v, end, i);
    } else if n + HEADER + MIN_SIZE < size {
      o, e := v[i].off, HEADER + n;
      HeapCalls.ShrinkForClients(v, HEADER, m0, m1, end, i, n);
      HeapCalls.ShrinkOthers(v, HEADER, m0, m1, end, i, n);
    } else {
      e := MoveForClients(v, w, m0, m1, end, i, k, n, memSize, r - base);
      o := r - base - HEADER;
      HeapCalls.OthersKeptForClients(m0, m1, v, HEADER, end, i);
    }
  }

  lemma AlignedIs(n: nat)
    requires n % 4 == 0 && n < TWO32
    ensures Align4(n) == n && Need(n) == if n < 12 then 12 else n
  {
  }

  lemma NeedCovers(n: nat)
    ensures n % 4 == 0 && n < TWO32 ==> n <= Need(n)
  {
    if n % 4 == 0 && n < TWO32 { AlignedIs(n); }
  }

  lemma NeedOfAligned(size: nat)
    requires size < TWO32 && Align4(size) > 0
    ensures Align4(size) % 4 == 0 && Align4(size) <= Need(Align4(size))
  {
    AlignFacts(size);
    AlignTwice(size);
  }

  /** Block `k` is taken and block `i` given back. */
  ghost function Moved(v: seq<Block>, i: nat, k: nat, need: nat): seq<Block>
    requires i + 1 < |v| && k + 1 < |v|
  {
    Release(Alloc(v, k, need, HEADER), ShiftedIndex(v, i, k, need, HEADER))
  }

  /** The first `n` bytes of block `i` are now in block `k`; no other client's word changed. */
  ghost predicate DataMoved(v: seq<Block>, m0: Memory, m1: Memory, i: nat, k: nat, n: nat)
    requires i < |v| && k < |v|
  {
    && OthersKept(m0, m1, v, i, HEADER)
    && (forall o: nat :: o < n && o % 4 == 0 ==> WordMoved(m0, m1, v[i].off + HEADER, v[k].off + HEADER, o))
  }
}
