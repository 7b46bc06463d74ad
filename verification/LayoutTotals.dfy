/** Byte accounting over a row of blocks: what `used_mem` (mem.c) and `available_size` (memheap.c) add up. */
module LayoutTotals {
  import opened Layout

  /** The bytes block `i` adds when blocks with flag `used` are counted, `g` bytes of each left out. */
  ghost function Share(v: seq<Block>, i: nat, used: bool, g: nat): int
    requires i + 1 < |v|
  {
    if v[i].used == used then v[i + 1].off - v[i].off - g else 0
  }

  ghost function Total(v: seq<Block>, used: bool, g: nat): int
  {
    if |v| < 2 then 0 else Share(v, 0, used, g) + Total(v[1..], used, g)
  }

  /** `used_mem`: extents (header included) of the used blocks, sentinel excluded. */
  ghost function UsedBytes(v: seq<Block>): int { Total(v, true, 0) }

  /** `available_size`: payload bytes of the free blocks. */
  ghost function FreeRoom(v: seq<Block>, h: nat): int { Total(v, false, h) }

  lemma {:induction false} TotalSplit(v: seq<Block>, used: bool, g: nat, k: nat)
    requires k < |v|
    ensures Total(v, used, g) == Total(v[..k + 1], used, g) + Total(v[k..], used, g)
  {
    if k == 0 {
      assert v[0..] == v;
    } else {
      TotalSplit(v[1..], used, g, k - 1);
      assert v[1..][..k] == v[..k + 1][1..];
      assert v[1..][k - 1..] == v[k..];
    }
  }

  lemma TotalAround(v: seq<Block>, used: bool, g: nat, i: nat)
    requires i + 1 < |v|
    ensures Total(v, used, g) == Total(v[..i + 1], used, g) + Share(v, i, used, g) + Total(v[i + 1..], used, g)
  {
    TotalSplit(v, used, g, i);
    assert v[i..][1..] == v[i + 1..];
  }

  /** Only offsets of the last block matter to a prefix's total. */
  lemma {:induction false} LastFlagIrrelevant(v: seq<Block>, w: seq<Block>, used: bool, g: nat)
    requires |v| == |w| > 0 && v[..|v| - 1] == w[..|w| - 1] && v[|v| - 1].off == w[|w| - 1].off
    ensures Total(v, used, g) == Total(w, used, g)
  {
    if |v| >= 2 {
      assert v[0] == v[..|v| - 1][0] == w[..|w| - 1][0] == w[0];
      assert v[1..][..|v| - 2] == v[..|v| - 1][1..];
      assert w[1..][..|w| - 2] == w[..|w| - 1][1..];
      if |v| > 2 { assert v[1] == v[..|v| - 1][1] == w[..|w| - 1][1] == w[1]; }
      LastFlagIrrelevant(v[1..], w[1..], used, g);
    }
  }

  lemma SetUsedTotal(v: seq<Block>, i: nat, b: bool, used: bool, g: nat)
    requires i + 1 < |v|
    ensures Total(SetUsed(v, i, b), used, g) ==
            Total(v, used, g) - Share(v, i, used, g) + (if b == used then v[i + 1].off - v[i].off - g else 0)
  {
    var w := SetUsed(v, i, b);
    TotalAround(v, used, g, i);
    TotalAround(w, used, g, i);
    LastFlagIrrelevant(v[..i + 1], w[..i + 1], used, g);
    assert v[i + 1..] == w[i + 1..];
  }

  lemma CutTotal(v: seq<Block>, i: nat, size: nat, h: nat, used: bool, g: nat)
    requires i + 1 < |v|
    ensures Total(Cut(v, i, size, h), used, g) ==
            Total(v, used, g) - Share(v, i, used, g)
            + (if v[i].used == used then h + size - g else 0)
            + (if used then 0 else v[i + 1].off - v[i].off - h - size - g)
  {
    var w := Cut(v, i, size, h);
    TotalAround(v, used, g, i);
    TotalAround(w, used, g, i);
    assert w[..i + 1] == v[..i + 1];
    TotalAround(w[i + 1..], used, g, 0);
    assert w[i + 1..][..1] == [w[i + 1]];
    assert w[i + 1..][1..] == v[i + 1..];
  }

  lemma SwallowTotal(v: seq<Block>, i: nat, used: bool, g: nat)
    requires i + 2 < |v|
    ensures Total(Swallow(v, i), used, g) ==
            Total(v, used, g) - Share(v, i, used, g) - Share(v, i + 1, used, g)
            + (if v[i].used == used then v[i + 2].off - v[i].off - g else 0)
  {
    var w := Swallow(v, i);
    TotalAround(v, used, g, i);
    TotalAround(w, used, g, i);
    assert w[..i + 1] == v[..i + 1];
    TotalAround(v[i + 1..], used, g, 0);
    assert v[i + 1..][..1] == [v[i + 1]];
    assert v[i + 1..][1..] == v[i + 2..] == w[i + 1..];
  }

  // ----- the two statistics -----

  /** Used and free extents together are the whole heap: mem_size_aligned + SIZEOF_STRUCT_MEM. */
  lemma {:induction false} UsedPlusFree(v: seq<Block>)
    requires |v| > 0
    ensures Total(v, true, 0) + Total(v, false, 0) == v[|v| - 1].off - v[0].off
  {
    if |v| > 1 { UsedPlusFree(v[1..]); }
  }

  lemma AllocUsed(v: seq<Block>, i: nat, size: nat, h: nat)
    requires i + 1 < |v| && !v[i].used
    ensures i + 1 < |Alloc(v, i, size, h)|
    ensures UsedBytes(Alloc(v, i, size, h)) == UsedBytes(v) + h + Room(Alloc(v, i, size, h), i, h)
  {
    SetUsedTotal(v, i, true, true, 0);
    CutTotal(SetUsed(v, i, true), i, size, h, true, 0);
  }

  lemma PlugUsed(v: seq<Block>, i: nat)
    requires i + 1 < |v| && !v[i].used
    ensures UsedBytes(Plug(v, i)) == UsedBytes(v)
  {
    var w := MergeNext(v, i);
    if w != v { SwallowTotal(v, i, true, 0); }
    if i > 0 && !w[i - 1].used { SwallowTotal(w, i - 1, true, 0); }
  }

  lemma ReleaseUsed(v: seq<Block>, i: nat, h: nat)
    requires i + 1 < |v| && v[i].used
    ensures UsedBytes(Release(v, i)) == UsedBytes(v) - (h + Room(v, i, h))
  {
    SetUsedTotal(v, i, false, true, 0);
    PlugUsed(SetUsed(v, i, false), i);
  }

  lemma ShrinkUsed(v: seq<Block>, i: nat, size: nat, h: nat)
    requires i + 1 < |v| && v[i].used
    ensures UsedBytes(Shrink(v, i, size, h)) == UsedBytes(v) - (Room(v, i, h) - size)
  {
    CutTotal(v, i, size, h, true, 0);
    PlugUsed(Cut(v, i, size, h), i + 1);
  }

  lemma {:induction false} TotalNonNegative(v: seq<Block>, h: nat, used: bool, g: nat)
    requires (forall k: nat :: k + 1 < |v| ==> Apart(v, k, h)) && g <= h
    ensures Total(v, used, g) >= 0
  {
    if |v| >= 2 {
      assert Apart(v, 0, h);
      forall k: nat | k + 1 < |v[1..]| ensures Apart(v[1..], k, h) { assert Apart(v, k + 1, h); }
      TotalNonNegative(v[1..], h, used, g);
    }
  }

  // ----- what memheap.c's available_size tracks -----

  lemma AllocRoom(v: seq<Block>, i: nat, size: nat, h: nat)
    requires i + 1 < |v| && !v[i].used
    ensures FreeRoom(Alloc(v, i, size, h), h) ==
            FreeRoom(v, h) - if Room(v, i, h) >= size + h + MIN_SIZE then size + h else Room(v, i, h)
  {
    SetUsedTotal(v, i, true, false, h);
    CutTotal(SetUsed(v, i, true), i, size, h, false, h);
  }

  /** Each header that disappears in a merge becomes payload. */
  lemma ReleaseRoom(v: seq<Block>, i: nat, h: nat)
    requires i + 1 < |v| && v[i].used
    ensures FreeRoom(Release(v, i), h) ==
            FreeRoom(v, h) + Room(v, i, h)
            + (if i > 0 && !v[i - 1].used then h else 0)
            + (if i + 2 < |v| && !v[i + 1].used then h else 0)
  {
    var u := SetUsed(v, i, false);
    SetUsedTotal(v, i, false, false, h);
    var w := MergeNext(u, i);
    if w != u { SwallowTotal(u, i, false, h); }
    if i > 0 && !w[i - 1].used { SwallowTotal(w, i - 1, false, h); }
  }

  lemma ShrinkRoom(v: seq<Block>, i: nat, size: nat, h: nat)
    requires i + 1 < |v| && v[i].used
    ensures FreeRoom(Shrink(v, i, size, h), h) ==
            FreeRoom(v, h) + Room(v, i, h) - h - size + (if i + 2 < |v| && !v[i + 1].used then h else 0)
  {
    CutTotal(v, i, size, h, false, h);
    var u := Cut(v, i, size, h);
    var w := MergeNext(u, i + 1);
    if w != u { SwallowTotal(u, i + 1, false, h); }
  }

  lemma GrowRoom(v: seq<Block>, i: nat, size: nat, h: nat)
    requires i + 2 < |v| && v[i].used && !v[i + 1].used
    ensures FreeRoom(Grow(v, i, size, h), h) == FreeRoom(v, h) - (size - Room(v, i, h))
  {
    SwallowTotal(v, i, false, h);
    CutTotal(Swallow(v, i), i, size, h, false, h);
  }

  // ----- high-water marks -----

  /** `m` is the largest value in `h`. */
  ghost predicate Peak(h: seq<nat>, m: nat)
  {
    m in h && forall x :: x in h ==> x <= m
  }

  lemma PeakAppend(h: seq<nat>, m: nat, x: nat)
    requires Peak(h, m)
    ensures Peak(h + [x], if m < x then x else m)
  {
    assert (h + [x])[|h|] == x;
  }
}
