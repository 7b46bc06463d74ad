/** rt_malloc_align and rt_free_align (kservice.c): alignment on top of the small heap, with the raw
    block address hidden in the word before the aligned one. */
module AlignedAlloc {
  import opened Layout
  import opened Words
  import opened LayoutLive
  import opened HeapMemory
  import opened SmallHeap

  const WORD_SIZE := 4    // sizeof(void *)

  predicate IsPowerOf2(n: nat)
  {
    n == 1 || (n > 0 && n % 2 == 0 && IsPowerOf2(n / 2))
  }

  /** The bytes asked of rt_malloc, and the alignment after rounding it to the pointer size. */
  function WordAlign(align: nat): nat { Align4(align) }

  function TotalSize(size: nat, align: nat): nat { (Align4(size) + WordAlign(align)) % TWO32 }

  /** Neither rounding nor adding the slack leaves 32 bits. */
  predicate NoWrap(size: nat, align: nat)
  {
    size <= TWO32 - 4 && Align4(size) + WordAlign(align) < TWO32
  }

  /** `ptr & (align - 1)` and `& ~(align - 1)`, for a power of two. */
  function AlignedAddress(p: nat, align: nat): nat
    requires align > 0
  {
    if p % align == 0 then p + align else (p + (align - 1)) / align * align
  }

  lemma PowerDividesBy4(n: nat)
    requires IsPowerOf2(n) && n > 2
    ensures n % 4 == 0
  {
    var m := n / 2;
    assert n == 2 * m && m > 1 && IsPowerOf2(m);
    assert m % 2 == 0;
  }

  lemma WordAlignFacts(align: nat)
    requires IsPowerOf2(align) && align <= 0x8000_0000
    ensures WordAlign(align) % 4 == 0 && WordAlign(align) >= 4 && WordAlign(align) % align == 0
  {
    if align > 2 {
      PowerDividesBy4(align);
      AlignOfMultiple(align);
    } else {
      assert align == 1 || align == 2;
    }
  }

  lemma MulSign(x: int, a: int)
    requires a > 0
    ensures x >= 1 ==> x * a >= a
    ensures x <= -1 ==> x * a <= -a
  {
  }

  lemma MultipleMod(t: nat, a: nat)
    requires a > 0
    ensures (t * a) % a == 0
  {
    var q, r := (t * a) / a, (t * a) % a;
    assert t * a == q * a + r;
    assert (t - q) * a == r;
    MulSign(t - q, a);
  }

  /** The aligned address is a multiple of the alignment and leaves room for the hidden word before it. */
  lemma AlignedAddressFacts(p: nat, a: nat)
    requires p % 4 == 0 && a % 4 == 0 && a >= 4
    ensures var q := AlignedAddress(p, a); q % a == 0 && q % 4 == 0 && p + WORD_SIZE <= q <= p + a
  {
    if p % a == 0 {
      NextMultiple(p, a, p / a);
    } else {
      RoundUpFacts(p, a, (p + (a - 1)) / a);
    }
  }

  lemma NextMultiple(p: nat, a: nat, t: nat)
    requires p % 4 == 0 && a % 4 == 0 && a >= 4 && t == p / a && p % a == 0
    ensures (p + a) % a == 0 && (p + a) % 4 == 0
  {
    assert p + a == (t + 1) * a;
    MultipleMod(t + 1, a);
    MultipleOf4(t + 1, a);
  }

  lemma RoundUpFacts(p: nat, a: nat, t: nat)
    requires p % 4 == 0 && a % 4 == 0 && a >= 4 && p % a != 0 && t == (p + (a - 1)) / a
    ensures (t * a) % a == 0 && (t * a) % 4 == 0 && p + WORD_SIZE <= t * a <= p + a
  {
    MultipleMod(t, a);
    MultipleOf4(t, a);
    DivMod(p + (a - 1), a);
    NextAfter(p, a, t * a, (p + (a - 1)) % a);
  }

  lemma DivMod(n: nat, a: nat)
    requires a > 0
    ensures n == n / a * a + n % a && n % a < a
  {
  }

  /** `q` is the first multiple of `a` behind `p`. */
  lemma NextAfter(p: nat, a: nat, q: nat, r: nat)
    requires a >= 4 && p % 4 == 0 && q % 4 == 0 && p % a != 0 && q % a == 0
    requires r < a && p + (a - 1) == q + r
    ensures p + WORD_SIZE <= q <= p + a
  {
    assert p != q;
    Step4(p, q);
  }

  lemma Step4(p: nat, q: nat)
    requires p % 4 == 0 && q % 4 == 0 && p < q
    ensures p + 4 <= q
  {
  }

  lemma DivisorMod(q: nat, a: nat, b: nat)
    requires b > 0 && a > 0 && a % b == 0 && q % a == 0
    ensures q % b == 0
  {
    var t, s := q / a, a / b;
    assert q == t * a && a == s * b;
    assert q == (t * s) * b;
    MultipleMod(t * s, b);
  }

  /** rt_malloc_align. */
  method MallocAlign(h: Heap, size: nat, align: nat) returns (ptr: nat, ghost k: nat)
    requires h.Valid() && size < TWO32 && align <= 0x8000_0000 && IsPowerOf2(align) && NoWrap(size, align)
    requires h.CanScan(TotalSize(size, align))
    modifies h
    ensures h.Valid() && h.base == old(h.base) && h.memSize == old(h.memSize)
    ensures ptr == 0 ==> unchanged(h)
    ensures ptr == 0 <==> TotalSize(size, align) > h.memSize
                          || NoFit(old(h.view), Need(TotalSize(size, align)), h.memSize)
    ensures ptr != 0 ==>
      && FirstFit(old(h.view), k, Need(TotalSize(size, align)), h.memSize)
      && h.view == Alloc(old(h.view), k, Need(TotalSize(size, align)), HEADER)
      && ptr % align == 0 && Hidden(h, ptr, size, k)
      && KeepsOwned(old(h.mem), h.mem, old(h.view), HEADER)
    // the hidden word and the bytes asked for lie in the new block, one before the other, and the word points to the block
    ensures ptr != 0 ==>
      && k + 1 < |h.view| && h.view[k].used && k < |old(h.view)| && old(h.view)[k] == Block(h.view[k].off, false)
      && h.base + h.view[k].off + 16 <= ptr && ptr + size <= h.base + h.view[k + 1].off
      && ptr - 4 - h.base in h.mem && h.mem[ptr - 4 - h.base] == h.base + h.view[k].off + 12
  {
    var total := TotalSize(size, align);
    TotalIsSelfAligned(size, align);
    ptr, k := h.Malloc(total);
    if ptr != 0 {
      assert Fits(old(h.view), k, Need(total), h.memSize);
      ptr := HideAddress(h, ptr, size, align, k, old(h.view), old(h.mem));
    }
  }

  /** Pick the aligned address in the new block `k` and write the block's own address before it. */
  method HideAddress(h: Heap, raw: nat, size: nat, align: nat, ghost k: nat, ghost v: seq<Block>, ghost m0: Memory)
    returns (ptr: nat)
    requires h.Valid() && h.Holds(k, raw) && raw % 4 == 0
    requires size < TWO32 && align <= 0x8000_0000 && IsPowerOf2(align) && NoWrap(size, align)
    requires WellFormed(v, HEADER, h.End()) && k + 1 < |v| && !v[k].used && KeepsOwned(m0, h.mem, v, HEADER)
    requires h.view == Alloc(v, k, Need(TotalSize(size, align)), HEADER)
    requires Need(TotalSize(size, align)) <= Room(v, k, HEADER)
    modifies h`mem
    ensures h.Valid() && ptr != 0 && ptr % align == 0 && Hidden(h, ptr, size, k) && KeepsOwned(m0, h.mem, v, HEADER)
  {
    ghost var need := Need(TotalSize(size, align));
    PointerFacts(raw, size, align);
    ptr := AlignedAddress(raw, WordAlign(align));
    NeedFacts(TotalSize(size, align));
    AllocKeeps(v, HEADER, h.End(), k, need);
    AllocWithin(v, k, need);
    WriteHidden(h, ptr, raw, k, v, m0);
  }

  method WriteHidden(h: Heap, ptr: nat, raw: nat, ghost k: nat, ghost v: seq<Block>, ghost m0: Memory)
    requires h.Valid() && h.Holds(k, raw) && raw + WORD_SIZE <= ptr <= raw + Room(h.view, k, HEADER)
    requires raw % 4 == 0 && ptr % 4 == 0
    requires WellFormed(v, HEADER, h.End()) && k + 1 < |v| && !v[k].used && KeepsOwned(m0, h.mem, v, HEADER)
    requires h.view[k].off == v[k].off && h.view[k + 1].off <= v[k + 1].off
    modifies h`mem
    ensures h.Valid() && KeepsOwned(m0, h.mem, v, HEADER)
    ensures ptr - WORD_SIZE - h.base in h.mem && h.mem[ptr - WORD_SIZE - h.base] == raw
  {
    ghost var m1, at := h.mem, ptr - WORD_SIZE - h.base;
    PayloadWord(m1, h.view, HEADER, h.End(), k, ptr - WORD_SIZE - raw);
    assert OwnedBy(h.view, k, at, HEADER);
    h.ClientWrite(ptr - WORD_SIZE, raw, k);
    HiddenWriteKeeps(m0, m1, h.mem, v, h.End(), k, at);
  }

  lemma TotalIsSelfAligned(size: nat, align: nat)
    requires size < TWO32 && align <= 0x8000_0000 && IsPowerOf2(align) && NoWrap(size, align)
    ensures var t := TotalSize(size, align); 0 < t < TWO32 && Align4(t) == t
  {
    TotalIsMultiple(size, align);
    SumOnce(Align4(size) + WordAlign(align));
    WordAlignFacts(align);
    AlignOfMultiple(TotalSize(size, align));
  }

  lemma AlignOfMultiple(x: nat)
    requires x % 4 == 0 && x < TWO32
    ensures Align4(x) == x
  {
  }

  lemma PointerFacts(raw: nat, size: nat, align: nat)
    requires raw % 4 == 0 && size < TWO32 && align <= 0x8000_0000 && IsPowerOf2(align) && NoWrap(size, align)
    ensures WordAlign(align) > 0 && var ptr := AlignedAddress(raw, WordAlign(align));
      ptr % align == 0 && ptr % 4 == 0 && raw + WORD_SIZE <= ptr && ptr + size <= raw + Need(TotalSize(size, align))
  {
    var a := WordAlign(align);
    WordAlignFacts(align);
    AlignedAddressFacts(raw, a);
    DivisorMod(AlignedAddress(raw, a), a, align);
    if size > 0 { SizeSufficesIffNoWrap(size, align); } else { EmptySizeSuffices(align); }
  }

  lemma EmptySizeSuffices(align: nat)
    requires IsPowerOf2(align) && align <= 0x8000_0000
    ensures WordAlign(align) <= Need(TotalSize(0, align))
  {
    WordAlignFacts(align);
    TotalIsMultiple(0, align);
    assert Align4(0) == 0;
    SumOnce(0 + WordAlign(align));
    WordAlignBound(align);
    hide Align4, WordAlign, Need;
    NeedOfMultiple(TotalSize(0, align));
  }

  lemma WordAlignBound(align: nat)
    requires align <= 0x8000_0000
    ensures WordAlign(align) < TWO32
  {
  }

  /** An allocated block stays within the free block it was carved from. */
  lemma AllocWithin(v: seq<Block>, k: nat, need: nat)
    requires k + 1 < |v| && need <= Room(v, k, HEADER)
    ensures k + 1 < |Alloc(v, k, need, HEADER)|
    ensures Alloc(v, k, need, HEADER)[k].off == v[k].off && Alloc(v, k, need, HEADER)[k + 1].off <= v[k + 1].off
  {
  }

  lemma HiddenWriteKeeps(m0: Memory, m1: Memory, m2: Memory, v: seq<Block>, end: nat, k: nat, a: nat)
    requires Tiled(v, HEADER, end) && k + 1 < |v| && !v[k].used && v[k].off <= a < v[k + 1].off
    requires KeepsOwned(m0, m1, v, HEADER) && OnlyChanges(m1, m2, {a})
    ensures KeepsOwned(m0, m2, v, HEADER)
  {
    forall b: nat | b in m0 && Owned(v, b, HEADER) ensures m2[b] == m0[b] { NotInFreeBlock(v, HEADER, end, k, b); }
  }

  /** `ptr` came from MallocAlign: block `k` holds its `size` bytes and, just before them, the address of its payload. */
  ghost predicate Hidden(h: Heap, ptr: nat, size: nat, k: nat)
    reads h
  {
    && k + 1 < |h.view| && h.view[k].used && h.view[k].off < h.memSize
    && var raw := h.base + h.view[k].off + HEADER;
       && raw + WORD_SIZE <= ptr && ptr + size <= raw + Room(h.view, k, HEADER)
       && ptr - WORD_SIZE - h.base in h.mem && h.mem[ptr - WORD_SIZE - h.base] == raw
  }

  /** rt_free_align: as long as the hidden word is intact, exactly the block MallocAlign took comes back. */
  method FreeAlign(h: Heap, ptr: nat, ghost size: nat, ghost k: nat)
    requires h.Valid() && Hidden(h, ptr, size, k)
    modifies h
    ensures h.Valid() && h.view == Release(old(h.view), k) && KeepsOwned(old(h.mem), h.mem, h.view, HEADER)
    ensures forall off: nat, ext: nat ::
      IsLive(h.view, off, ext) <==> IsLive(old(h.view), off, ext) && off != old(h.view)[k].off
  {
    var raw := h.mem[ptr - WORD_SIZE - h.base];
    h.Free(raw, k);
  }

  /** Aligned allocation and release cancel: the layout is back to what it was before MallocAlign. */
  lemma FreeAlignUndoesMallocAlign(v: seq<Block>, memSize: nat, k: nat, size: nat, align: nat)
    requires WellFormed(v, HEADER, memSize + HEADER)
    requires FirstFit(v, k, Need(TotalSize(size, align)), memSize)
    ensures Release(Alloc(v, k, Need(TotalSize(size, align)), HEADER), k) == v
  {
    NeedFacts(TotalSize(size, align));
    assert Fits(v, k, Need(TotalSize(size, align)), memSize);
    ReleaseUndoesAlloc(v, HEADER, memSize + HEADER, k, Need(TotalSize(size, align)));
  }

  /** The block covers the request wherever the aligned address falls, exactly when nothing wraps; once
      something wraps, no block rt_malloc may return for the wrapped size can hold the request at all. */
  lemma SizeSufficesIffNoWrap(size: nat, align: nat)
    requires 0 < size < TWO32 && IsPowerOf2(align) && align <= 0x8000_0000
    ensures NoWrap(size, align) ==> WordAlign(align) + size <= Need(TotalSize(size, align))
    ensures !NoWrap(size, align) ==> WORD_SIZE + size > Need(TotalSize(size, align)) + HEADER + MIN_SIZE
  {
    WordAlignFacts(align);
    AlignFacts(size);
    AlignFacts(align);
    SumOnce(Align4(size) + WordAlign(align));
    TotalIsMultiple(size, align);
    NeedOfMultiple(TotalSize(size, align));
  }

  lemma SumOnce(x: nat)
    requires x < 2 * TWO32
    ensures x % TWO32 == if x < TWO32 then x else x - TWO32
  {
  }

  lemma NeedOfMultiple(x: nat)
    requires x % 4 == 0 && x < TWO32
    ensures Need(x) == if x < MIN_SIZE then MIN_SIZE else x
  {
  }

  lemma AlignRange(x: nat)
    ensures Align4(x) < TWO32
  {
  }

  lemma TotalIsMultiple(size: nat, align: nat)
    requires size < TWO32 && align <= 0x8000_0000
    ensures TotalSize(size, align) % 4 == 0 && TotalSize(size, align) < TWO32
  {
    AlignFacts(size);
    AlignFacts(align);
    AlignRange(size);
    AlignRange(align);
    hide Align4;
    Sum4(Align4(size), Align4(align));
    Wrap4(Align4(size) + Align4(align));
  }

  lemma Sum4(x: nat, y: nat)
    requires x % 4 == 0 && y % 4 == 0
    ensures (x + y) % 4 == 0
  {
  }

  lemma Wrap4(x: nat)
    requires x % 4 == 0 && x < 2 * TWO32
    ensures x % TWO32 % 4 == 0 && x % TWO32 < TWO32
  {
    SumOnce(x);
    if x >= TWO32 { Down4(x - TWO32); }
  }

  lemma Down4(x: nat)
    requires (x + TWO32) % 4 == 0
    ensures x % 4 == 0
  {
  }
}
