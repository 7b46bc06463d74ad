/** Heap layouts shared by the two allocators (mem.c and memheap.c).

    A heap is a row of blocks in address order.  Each block starts with a header of `h`
    bytes and runs up to the next block; the last block is the used sentinel (mem.c) or
    tailer (memheap.c) that owns no payload.  This module says what the allocators do to
    such a row, independently of how either of them stores its headers. */
module Layout {

  datatype Block = Block(off: nat, used: bool)

  // MIN_SIZE_ALIGNED in mem.c and RT_MEMHEAP_MINIALLOC in memheap.c
  const MIN_SIZE := 12

  // ----- well-formed rows -----

  ghost predicate Apart(v: seq<Block>, i: nat, h: nat)
    requires i + 1 < |v|
  {
    v[i].off + h <= v[i + 1].off
  }

  ghost predicate Guarded(v: seq<Block>, i: nat)
    requires i + 1 < |v|
  {
    v[i].used || v[i + 1].used
  }

  ghost predicate Aligned(b: Block)
  {
    b.off % 4 == 0
  }

  /** The blocks tile [0, end): word-aligned, in address order, each at least one header long. */
  ghost predicate Tiled(v: seq<Block>, h: nat, end: nat)
  {
    && |v| >= 2 && h > 0
    && v[0].off == 0
    && v[|v| - 1] == Block(end, true)
    && (forall i: nat :: i + 1 < |v| ==> Apart(v, i, h))
    && (forall i: nat :: i < |v| ==> Aligned(v[i]))
  }

  /** No two neighbours are free, except possibly around block `i`. */
  ghost predicate CoalescedBut(v: seq<Block>, i: int)
  {
    forall j: nat :: j + 1 < |v| && j != i && j + 1 != i ==> Guarded(v, j)
  }

  ghost predicate Coalesced(v: seq<Block>)
  {
    CoalescedBut(v, -1)
  }

  ghost predicate WellFormed(v: seq<Block>, h: nat, end: nat)
  {
    Tiled(v, h, end) && Coalesced(v)
  }

  /** Payload bytes of block `i`. */
  ghost function Room(v: seq<Block>, i: nat, h: nat): int
    requires i + 1 < |v|
  {
    v[i + 1].off - v[i].off - h
  }

  /** Block `k` is in a client's hands, starts at `off` and spans `ext` bytes (header included). */
  ghost predicate LiveAt(v: seq<Block>, k: nat, off: nat, ext: nat)
  {
    k + 1 < |v| && v[k] == Block(off, true) && v[k + 1].off == off + ext
  }

  ghost predicate IsLive(v: seq<Block>, off: nat, ext: nat)
  {
    exists k: nat :: LiveAt(v, k, off, ext)
  }

  /** Address order, from any block to any later one. */
  lemma {:induction false} InOrder(v: seq<Block>, h: nat, i: nat, j: nat)
    requires h > 0 && forall k: nat :: k + 1 < |v| ==> Apart(v, k, h)
    requires i < j < |v|
    ensures v[i].off + h <= v[j].off
    decreases j
  {
    assert Apart(v, j - 1, h);
    if i < j - 1 { InOrder(v, h, i, j - 1); }
  }

  lemma LastOffset(v: seq<Block>, h: nat, end: nat, k: nat)
    requires Tiled(v, h, end) && k < |v|
    ensures v[k].off <= end
  {
    if k < |v| - 1 { InOrder(v, h, k, |v| - 1); }
  }

  lemma IndexIsUnique(v: seq<Block>, h: nat, end: nat, i: nat, j: nat)
    requires Tiled(v, h, end) && i < |v| && j < |v| && v[i].off == v[j].off
    ensures i == j
  {
    if i < j { InOrder(v, h, i, j); }
    if j < i { InOrder(v, h, j, i); }
  }

  // ----- what the allocators do to a row -----

  ghost function SetUsed(v: seq<Block>, i: nat, used: bool): seq<Block>
    requires i < |v|
  {
    v[i := Block(v[i].off, used)]
  }

  /** End block `i` after `size` payload bytes; the rest becomes a free block of its own. */
  ghost function Cut(v: seq<Block>, i: nat, size: nat, h: nat): seq<Block>
    requires i < |v|
  {
    v[..i + 1] + [Block(v[i].off + h + size, false)] + v[i + 1..]
  }

  /** Let block `i` swallow the block after it. */
  ghost function Swallow(v: seq<Block>, i: nat): seq<Block>
    requires i + 2 < |v|
  {
    v[..i + 1] + v[i + 2..]
  }

  /** Hand out free block `i` for `size` payload bytes, splitting it when the rest can stand alone. */
  ghost function Alloc(v: seq<Block>, i: nat, size: nat, h: nat): seq<Block>
    requires i + 1 < |v|
  {
    if Room(v, i, h) >= size + h + MIN_SIZE then Cut(SetUsed(v, i, true), i, size, h)
    else SetUsed(v, i, true)
  }

  ghost function MergeNext(v: seq<Block>, i: nat): seq<Block>
    requires i < |v|
  {
    if i + 2 < |v| && !v[i + 1].used then Swallow(v, i) else v
  }

  ghost function MergePrev(v: seq<Block>, i: nat): seq<Block>
    requires i + 1 < |v|
  {
    if i > 0 && !v[i - 1].used then Swallow(v, i - 1) else v
  }

  /** Merge free block `i` with its free neighbours. */
  ghost function Plug(v: seq<Block>, i: nat): seq<Block>
    requires i + 1 < |v|
  {
    MergePrev(MergeNext(v, i), i)
  }

  /** Take block `i` back. */
  ghost function Release(v: seq<Block>, i: nat): seq<Block>
    requires i + 1 < |v|
  {
    Plug(SetUsed(v, i, false), i)
  }

  /** Shorten used block `i` to `size` payload bytes. */
  ghost function Shrink(v: seq<Block>, i: nat, size: nat, h: nat): seq<Block>
    requires i + 1 < |v|
  {
    Plug(Cut(v, i, size, h), i + 1)
  }

  /** Lengthen used block `i` into the free block after it. */
  ghost function Grow(v: seq<Block>, i: nat, size: nat, h: nat): seq<Block>
    requires i + 2 < |v|
  {
    Cut(Swallow(v, i), i, size, h)
  }

  // ----- the three elementary edits keep a row tiled -----

  lemma SetUsedTiled(v: seq<Block>, h: nat, end: nat, i: nat, used: bool)
    requires Tiled(v, h, end) && i + 1 < |v|
    ensures Tiled(SetUsed(v, i, used), h, end)
  {
    var w := SetUsed(v, i, used);
    forall k: nat | k + 1 < |w| ensures Apart(w, k, h) { assert Apart(v, k, h); }
    forall k: nat | k < |w| ensures Aligned(w[k]) { assert Aligned(v[k]); }
  }

  lemma CutTiled(v: seq<Block>, h: nat, end: nat, i: nat, size: nat)
    requires Tiled(v, h, end) && h % 4 == 0
    requires i + 1 < |v| && size % 4 == 0 && size + h <= Room(v, i, h)
    ensures Tiled(Cut(v, i, size, h), h, end)
  {
    var w := Cut(v, i, size, h);
    forall k: nat | k + 1 < |w| ensures Apart(w, k, h) {
      if k < i { assert Apart(v, k, h); }
      if k > i + 1 { assert Apart(v, k - 1, h); }
    }
    forall k: nat | k < |w| ensures Aligned(w[k]) {
      assert Aligned(v[if k <= i then k else if k == i + 1 then i else k - 1]);
    }
  }

  lemma SwallowTiled(v: seq<Block>, h: nat, end: nat, i: nat)
    requires Tiled(v, h, end) && i + 2 < |v|
    ensures Tiled(Swallow(v, i), h, end)
  {
    var w := Swallow(v, i);
    forall k: nat | k + 1 < |w| ensures Apart(w, k, h) {
      assert Apart(v, if k <= i then k else k + 1, h);
      if k == i { assert Apart(v, i + 1, h); }
    }
    forall k: nat | k < |w| ensures Aligned(w[k]) { assert Aligned(v[if k <= i then k else k + 1]); }
  }

  // ----- rows stay well formed -----

  lemma PlugKeeps(v: seq<Block>, h: nat, end: nat, i: nat)
    requires Tiled(v, h, end) && CoalescedBut(v, i) && i + 1 < |v| && !v[i].used
    ensures WellFormed(Plug(v, i), h, end)
  {
    var w := MergeNext(v, i);
    MergeNextKeeps(v, h, end, i);
    if i > 0 && !w[i - 1].used {
      SwallowTiled(w, h, end, i - 1);
      var u := Swallow(w, i - 1);
      forall k: nat | k + 1 < |u| ensures Guarded(u, k) {
        if k < i - 1 { assert Guarded(w, k); } else { assert Guarded(w, k + 1); }
      }
    } else {
      forall k: nat | k + 1 < |w| ensures Guarded(w, k) {
        if k != i && k + 1 != i { assert Guarded(w, k); }
      }
    }
  }

  lemma MergeNextKeeps(v: seq<Block>, h: nat, end: nat, i: nat)
    requires Tiled(v, h, end) && CoalescedBut(v, i) && i + 1 < |v| && !v[i].used
    ensures var w := MergeNext(v, i);
      Tiled(w, h, end) && CoalescedBut(w, i) && i + 1 < |w| && w[..i + 1] == v[..i + 1] && Guarded(w, i)
  {
    var w := MergeNext(v, i);
    if w != v {
      SwallowTiled(v, h, end, i);
      assert Guarded(v, i + 1);
      forall k: nat | k + 1 < |w| && k != i && k + 1 != i ensures Guarded(w, k) {
        assert Guarded(v, if k < i then k else k + 1);
      }
    }
  }

  lemma AllocKeeps(v: seq<Block>, h: nat, end: nat, i: nat, size: nat)
    requires WellFormed(v, h, end) && h % 4 == 0
    requires i + 1 < |v| && !v[i].used && size % 4 == 0 && size <= Room(v, i, h)
    ensures WellFormed(Alloc(v, i, size, h), h, end)
    ensures i + 1 < |Alloc(v, i, size, h)| && Alloc(v, i, size, h)[i] == Block(v[i].off, true)
    ensures size <= Room(Alloc(v, i, size, h), i, h) < size + h + MIN_SIZE
  {
    var u, w := SetUsed(v, i, true), Alloc(v, i, size, h);
    SetUsedTiled(v, h, end, i, true);
    forall k: nat | k + 1 < |u| ensures Guarded(u, k) { assert Guarded(v, k); }
    if w != u {
      CutTiled(u, h, end, i, size);
      assert Guarded(v, i);
      forall k: nat | k + 1 < |w| ensures Guarded(w, k) {
        if k < i { assert Guarded(u, k); }
        if k > i + 1 { assert Guarded(u, k - 1); }
      }
    }
  }

  lemma ReleaseKeeps(v: seq<Block>, h: nat, end: nat, i: nat)
    requires WellFormed(v, h, end) && i + 1 < |v| && v[i].used
    ensures WellFormed(Release(v, i), h, end)
  {
    var w := SetUsed(v, i, false);
    SetUsedTiled(v, h, end, i, false);
    forall k: nat | k + 1 < |w| && k != i && k + 1 != i ensures Guarded(w, k) { assert Guarded(v, k); }
    PlugKeeps(w, h, end, i);
  }

  lemma ShrinkKeeps(v: seq<Block>, h: nat, end: nat, i: nat, size: nat)
    requires WellFormed(v, h, end) && h % 4 == 0
    requires i + 1 < |v| && v[i].used && size % 4 == 0 && size + h <= Room(v, i, h)
    ensures WellFormed(Shrink(v, i, size, h), h, end)
  {
    var w := Cut(v, i, size, h);
    CutTiled(v, h, end, i, size);
    forall k: nat | k + 1 < |w| && k != i + 1 && k + 1 != i + 1 ensures Guarded(w, k) {
      assert Guarded(v, if k < i then k else k - 1);
    }
    PlugKeeps(w, h, end, i + 1);
  }

  lemma GrowKeeps(v: seq<Block>, h: nat, end: nat, i: nat, size: nat)
    requires WellFormed(v, h, end) && h % 4 == 0
    requires i + 2 < |v| && v[i].used && !v[i + 1].used
    requires size % 4 == 0 && v[i].off + h + size + h <= v[i + 2].off
    ensures WellFormed(Grow(v, i, size, h), h, end)
  {
    var w := Grow(v, i, size, h);
    SwallowTiled(v, h, end, i);
    CutTiled(Swallow(v, i), h, end, i, size);
    forall k: nat | k + 1 < |w| ensures Guarded(w, k) { assert Guarded(v, k); }
  }

  /** Where block `i` stands once block `k` has been taken. */
  ghost function ShiftedIndex(v: seq<Block>, i: nat, k: nat, need: nat, h: nat): (i1: nat)
    requires i + 1 < |v| && k + 1 < |v|
    ensures i1 + 1 < |Alloc(v, k, need, h)|
  {
    if i < k then i else i + |Alloc(v, k, need, h)| - |v|
  }

  /** Taking block `k` shifts block `i` by at most one place. */
  lemma MovedIndex(v: seq<Block>, h: nat, end: nat, i: nat, k: nat, need: nat)
    requires WellFormed(v, h, end) && h % 4 == 0 && i + 1 < |v| && v[i].used
    requires k + 1 < |v| && !v[k].used && need % 4 == 0 && need <= Room(v, k, h)
    ensures var u := Alloc(v, k, need, h); var i1 := ShiftedIndex(v, i, k, need, h);
      u[i1] == v[i] && u[i1 + 1].off == v[i + 1].off && WellFormed(u, h, end)
  {
    AllocKeeps(v, h, end, k, need);
    var u, i1 := Alloc(v, k, need, h), ShiftedIndex(v, i, k, need, h);
    if i < k {
      assert u[i1] == v[i];
      assert u[i1 + 1].off == v[i + 1].off;
    } else {
      assert |u| == |v| + 1 ==> u[i + 1] == v[i] && u[i + 2] == v[i + 1];
    }
  }
}
