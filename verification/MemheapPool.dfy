/** The pool of memheap.c: the blocks in address order, and the list of the free ones in the order in which a
    search meets them. */
module MemheapPool {
  import opened Sequences
  import opened Layout

  const HEADER := 24    // RT_MEMHEAP_SIZE; MIN_SIZE is RT_MEMHEAP_MINIALLOC

  /** `free`: the offsets on the free list, from free_list->next_free on. */
  datatype Pool = Pool(blocks: seq<Block>, free: seq<nat>)

  ghost predicate ListedAt(v: seq<Block>, f: seq<nat>, off: nat)
  {
    off in f <==> Block(off, false) in v
  }

  ghost predicate Listed(v: seq<Block>, f: seq<nat>)
  {
    forall off: nat :: ListedAt(v, f, off)
  }

  /** The two lists agree: the blocks tile the pool, no two neighbours are free, and the free list holds each free
      block once and nothing else. */
  ghost predicate Agree(p: Pool, end: nat)
  {
    WellFormed(p.blocks, HEADER, end) && NoDup(p.free) && Listed(p.blocks, p.free)
  }

  // ----- what the elementary edits do to the set of free blocks -----

  lemma SetUsedFree(v: seq<Block>, end: nat, i: nat, b: bool, off: nat)
    requires Tiled(v, HEADER, end) && i + 1 < |v|
    ensures Block(off, false) in SetUsed(v, i, b) <==> if off == v[i].off then !b else Block(off, false) in v
  {
    var w := SetUsed(v, i, b);
    if Block(off, false) in w {
      var k :| 0 <= k < |w| && w[k] == Block(off, false);
      if off == v[i].off { IndexIsUnique(v, HEADER, end, i, k); } else { assert v[k] == w[k]; }
    }
    if Block(off, false) in v && off != v[i].off {
      var k :| 0 <= k < |v| && v[k] == Block(off, false);
      assert w[k] == v[k];
    }
    assert w[i] == Block(v[i].off, b);
  }

  lemma CutFree(v: seq<Block>, i: nat, size: nat, off: nat)
    requires i + 1 < |v|
    ensures Block(off, false) in Cut(v, i, size, HEADER) <==> off == v[i].off + HEADER + size || Block(off, false) in v
  {
    var w := Cut(v, i, size, HEADER);
    if Block(off, false) in v {
      var k :| 0 <= k < |v| && v[k] == Block(off, false);
      assert w[if k <= i then k else k + 1] == v[k];
    }
    assert w[i + 1] == Block(v[i].off + HEADER + size, false);
  }

  lemma SwallowFree(v: seq<Block>, end: nat, i: nat, off: nat)
    requires Tiled(v, HEADER, end) && i + 2 < |v|
    ensures Block(off, false) in Swallow(v, i) <==> Block(off, false) in v && off != v[i + 1].off
  {
    var w := Swallow(v, i);
    if Block(off, false) in w {
      var k :| 0 <= k < |w| && w[k] == Block(off, false);
      var j := if k <= i then k else k + 1;
      assert v[j] == w[k];
      if off == v[i + 1].off { IndexIsUnique(v, HEADER, end, i + 1, j); }
    }
    if Block(off, false) in v && off != v[i + 1].off {
      var k :| 0 <= k < |v| && v[k] == Block(off, false);
      assert w[if k <= i then k else k - 1] == v[k];
    }
  }

  // ----- the operations -----

  /** Hand out free block `i`; what is split off goes to the front of the list. */
  ghost function Take(p: Pool, i: nat, size: nat): Pool
    requires i + 1 < |p.blocks|
  {
    var v := p.blocks;
    var rest := Without(p.free, v[i].off);
    Pool(Alloc(v, i, size, HEADER),
         if Room(v, i, HEADER) >= size + HEADER + MIN_SIZE then [v[i].off + HEADER + size] + rest else rest)
  }

  /** The list without the block after block `i`, if that one is free. */
  ghost function Unlisted(p: Pool, i: nat): seq<nat>
    requires i + 1 < |p.blocks|
  {
    if i + 2 < |p.blocks| && !p.blocks[i + 1].used then Without(p.free, p.blocks[i + 1].off) else p.free
  }

  /** Take back block `i`.  Merged to the left it keeps the neighbour's place in the list. */
  ghost function GiveBack(p: Pool, i: nat): Pool
    requires i + 1 < |p.blocks|
  {
    var v := p.blocks;
    Pool(Release(v, i), if i > 0 && !v[i - 1].used then Unlisted(p, i) else [v[i].off] + Unlisted(p, i))
  }

  ghost function CutDown(p: Pool, i: nat, size: nat): Pool
    requires i + 1 < |p.blocks|
  {
    Pool(Shrink(p.blocks, i, size, HEADER), [p.blocks[i].off + HEADER + size] + Unlisted(p, i))
  }

  ghost function GrowInto(p: Pool, i: nat, size: nat): Pool
    requires i + 2 < |p.blocks|
  {
    Pool(Grow(p.blocks, i, size, HEADER), [p.blocks[i].off + HEADER + size] + Without(p.free, p.blocks[i + 1].off))
  }

  // ----- the two lists keep agreeing -----

  /** An offset strictly inside a block is no block's. */
  lemma InsideIsNew(v: seq<Block>, end: nat, i: nat, n: nat)
    requires Tiled(v, HEADER, end) && i + 1 < |v| && v[i].off < n < v[i + 1].off
    ensures forall b :: b in v ==> b.off != n
  {
    forall b | b in v ensures b.off != n {
      var k :| 0 <= k < |v| && v[k] == b;
      if k < i { InOrder(v, HEADER, k, i); }
      if i + 1 < k { InOrder(v, HEADER, i + 1, k); }
    }
  }

  lemma TakeAgrees(p: Pool, end: nat, i: nat, size: nat)
    requires Agree(p, end) && i + 1 < |p.blocks| && !p.blocks[i].used
    requires size % 4 == 0 && size <= Room(p.blocks, i, HEADER)
    ensures Agree(Take(p, i, size), end)
  {
    var v := p.blocks;
    AllocKeeps(v, HEADER, end, i, size);
    WithoutTaken(p, end, i);
    if Room(v, i, HEADER) >= size + HEADER + MIN_SIZE {
      AddCut(SetUsed(v, i, true), end, i, size, Without(p.free, v[i].off));
    }
  }

  lemma WithoutTaken(p: Pool, end: nat, i: nat)
    requires Agree(p, end) && i + 1 < |p.blocks|
    ensures var f := Without(p.free, p.blocks[i].off); var u := SetUsed(p.blocks, i, true);
      Tiled(u, HEADER, end) && NoDup(f) && Listed(u, f)
  {
    SetUsedTiled(p.blocks, HEADER, end, i, true);
    WithoutMembers(p.free, p.blocks[i].off);
    forall off: nat ensures ListedAt(SetUsed(p.blocks, i, true), Without(p.free, p.blocks[i].off), off) {
      assert ListedAt(p.blocks, p.free, off);
      SetUsedFree(p.blocks, end, i, true, off);
    }
  }

  /** Cutting a block adds one entry. */
  lemma AddCut(v: seq<Block>, end: nat, i: nat, size: nat, f: seq<nat>)
    requires Tiled(v, HEADER, end) && i + 1 < |v| && size + HEADER <= Room(v, i, HEADER)
    requires NoDup(f) && Listed(v, f)
    ensures var n := v[i].off + HEADER + size;
      n !in f && NoDup([n] + f) && Listed(Cut(v, i, size, HEADER), [n] + f)
  {
    var n := v[i].off + HEADER + size;
    InsideIsNew(v, end, i, n);
    assert ListedAt(v, f, n);
    ConsMembers(n, f);
    forall off: nat ensures ListedAt(Cut(v, i, size, HEADER), [n] + f, off) {
      assert ListedAt(v, f, off);
      CutFree(v, i, size, off);
    }
  }

  /** Swallowing a free block removes one entry. */
  lemma WithoutSwallowed(v: seq<Block>, end: nat, i: nat, f: seq<nat>)
    requires Tiled(v, HEADER, end) && i + 2 < |v| && NoDup(f) && Listed(v, f)
    ensures NoDup(Without(f, v[i + 1].off)) && Listed(Swallow(v, i), Without(f, v[i + 1].off))
  {
    var g, w := Without(f, v[i + 1].off), Swallow(v, i);
    WithoutMembers(f, v[i + 1].off);
    forall off: nat ensures ListedAt(w, g, off) {
      assert ListedAt(v, f, off);
      SwallowFree(v, end, i, off);
    }
  }

  lemma MergeNextAgrees(v: seq<Block>, end: nat, i: nat, f: seq<nat>)
    requires Tiled(v, HEADER, end) && i + 1 < |v| && !v[i].used && NoDup(f) && Listed(v, f)
    ensures Tiled(MergeNext(v, i), HEADER, end)
    ensures NoDup(Unlisted(Pool(v, f), i)) && Listed(MergeNext(v, i), Unlisted(Pool(v, f), i))
  {
    if i + 2 < |v| && !v[i + 1].used {
      WithoutSwallowed(v, end, i, f);
      SwallowTiled(v, HEADER, end, i);
    }
  }

  lemma GiveBackAgrees(p: Pool, end: nat, i: nat)
    requires Agree(p, end) && i + 1 < |p.blocks| && p.blocks[i].used
    ensures Agree(GiveBack(p, i), end)
  {
    var v, o := p.blocks, p.blocks[i].off;
    var u := SetUsed(v, i, false);
    ReleaseKeeps(v, HEADER, end, i);
    SetUsedTiled(v, HEADER, end, i, false);
    SetUsedFree(v, end, i, true, o);
    assert SetUsed(v, i, true) == v;
    assert ListedAt(v, p.free, o);
    ConsMembers(o, p.free);
    forall off: nat ensures ListedAt(u, [o] + p.free, off) {
      assert ListedAt(v, p.free, off);
      SetUsedFree(v, end, i, false, off);
    }
    MergeNextAgrees(u, end, i, [o] + p.free);
    var w := MergeNext(u, i);
    WithoutBehind(o, p.free, v[i + 1].off, v, end, i);
    assert Unlisted(Pool(u, [o] + p.free), i) == [o] + Unlisted(p, i);
    if i > 0 && !v[i - 1].used {
      WithoutSwallowed(w, end, i - 1, [o] + Unlisted(p, i));
      assert w[i].off == o;
    }
  }

  lemma WithoutBehind(o: nat, f: seq<nat>, x: nat, v: seq<Block>, end: nat, i: nat)
    requires Tiled(v, HEADER, end) && i + 1 < |v| && o == v[i].off && x == v[i + 1].off
    ensures o != x && Without([o] + f, x) == [o] + Without(f, x)
  {
    assert Apart(v, i, HEADER);
    assert ([o] + f)[1..] == f;
  }

  lemma CutDownAgrees(p: Pool, end: nat, i: nat, size: nat)
    requires Agree(p, end) && i + 1 < |p.blocks| && p.blocks[i].used
    requires size % 4 == 0 && size + HEADER <= Room(p.blocks, i, HEADER)
    ensures Agree(CutDown(p, i, size), end)
  {
    ShrinkKeeps(p.blocks, HEADER, end, i, size);
    CutDownLists(p, end, i, size);
  }

  lemma CutDownLists(p: Pool, end: nat, i: nat, size: nat)
    requires Agree(p, end) && i + 1 < |p.blocks| && p.blocks[i].used
    requires size % 4 == 0 && size + HEADER <= Room(p.blocks, i, HEADER)
    ensures var q := CutDown(p, i, size); NoDup(q.free) && Listed(q.blocks, q.free)
  {
    var v, n := p.blocks, p.blocks[i].off + HEADER + size;
    var u := Cut(v, i, size, HEADER);
    CutTiled(v, HEADER, end, i, size);
    AddCut(v, end, i, size, p.free);
    CutNeighbours(v, i, size);
    MergeNextAgrees(u, end, i + 1, [n] + p.free);
    UnlistedBehind(p, end, i, size);
  }

  lemma UnlistedBehind(p: Pool, end: nat, i: nat, size: nat)
    requires i + 1 < |p.blocks| && p.blocks[i].used && Tiled(Cut(p.blocks, i, size, HEADER), HEADER, end)
    ensures var n := p.blocks[i].off + HEADER + size;
      Unlisted(Pool(Cut(p.blocks, i, size, HEADER), [n] + p.free), i + 1) == [n] + Unlisted(p, i)
  {
    var n := p.blocks[i].off + HEADER + size;
    var u := Cut(p.blocks, i, size, HEADER);
    CutNeighbours(p.blocks, i, size);
    WithoutBehind(n, p.free, p.blocks[i + 1].off, u, end, i + 1);
  }

  lemma CutNeighbours(v: seq<Block>, i: nat, size: nat)
    requires i + 1 < |v| && v[i].used
    ensures var u := Cut(v, i, size, HEADER);
      && |u| == |v| + 1 && u[i] == v[i] && u[i + 1] == Block(v[i].off + HEADER + size, false) && u[i + 2] == v[i + 1]
      && Shrink(v, i, size, HEADER) == MergeNext(u, i + 1)
  {
    var w := MergeNext(Cut(v, i, size, HEADER), i + 1);
    assert w[i] == v[i];
  }

  lemma GrowIntoAgrees(p: Pool, end: nat, i: nat, size: nat)
    requires Agree(p, end) && i + 2 < |p.blocks| && p.blocks[i].used && !p.blocks[i + 1].used
    requires size % 4 == 0 && p.blocks[i].off + HEADER + size + HEADER <= p.blocks[i + 2].off
    ensures Agree(GrowInto(p, i, size), end)
  {
    GrowKeeps(p.blocks, HEADER, end, i, size);
    SwallowTiled(p.blocks, HEADER, end, i);
    WithoutSwallowed(p.blocks, end, i, p.free);
    AddCut(Swallow(p.blocks, i), end, i, size, Without(p.free, p.blocks[i + 1].off));
  }
}
