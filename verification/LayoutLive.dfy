/** The blocks in clients' hands: how each operation on a row changes them, and that they determine the row. */
module LayoutLive {
  import opened Layout

  // ----- the live set changes exactly as the client was told -----

  lemma SwallowLive(v: seq<Block>, i: nat, off: nat, ext: nat)
    requires i + 2 < |v| && !v[i].used && !v[i + 1].used
    ensures IsLive(Swallow(v, i), off, ext) <==> IsLive(v, off, ext)
  {
    var w := Swallow(v, i);
    if IsLive(v, off, ext) {
      var k: nat :| LiveAt(v, k, off, ext);
      assert LiveAt(w, if k < i then k else k - 1, off, ext);
    }
    if IsLive(w, off, ext) {
      var k: nat :| LiveAt(w, k, off, ext);
      assert LiveAt(v, if k < i then k else k + 1, off, ext);
    }
  }

  lemma PlugLive(v: seq<Block>, i: nat, off: nat, ext: nat)
    requires i + 1 < |v| && !v[i].used
    ensures IsLive(Plug(v, i), off, ext) <==> IsLive(v, off, ext)
  {
    var w := MergeNext(v, i);
    if w != v { SwallowLive(v, i, off, ext); }
    assert !w[i].used;
    if i > 0 && !w[i - 1].used { SwallowLive(w, i - 1, off, ext); }
  }

  /** Cutting block `i` shortens it and leaves every other live block as it was. */
  lemma CutLive(v: seq<Block>, h: nat, end: nat, i: nat, size: nat, off: nat, ext: nat)
    requires Tiled(v, h, end) && h % 4 == 0 && i + 1 < |v| && v[i].used
    requires size % 4 == 0 && size + h <= Room(v, i, h)
    ensures IsLive(Cut(v, i, size, h), off, ext) <==>
            if off == v[i].off then ext == h + size else IsLive(v, off, ext)
  {
    var w := Cut(v, i, size, h);
    CutTiled(v, h, end, i, size);
    assert LiveAt(w, i, v[i].off, h + size);
    if IsLive(w, off, ext) {
      var k: nat :| LiveAt(w, k, off, ext);
      if off == v[i].off { IndexIsUnique(w, h, end, i, k); }
      else { assert LiveAt(v, if k < i then k else k - 1, off, ext); }
    }
    if IsLive(v, off, ext) && off != v[i].off {
      var k: nat :| LiveAt(v, k, off, ext);
      assert LiveAt(w, if k < i then k else k + 1, off, ext);
    }
  }

  lemma SetUsedLive(v: seq<Block>, h: nat, end: nat, i: nat, used: bool, off: nat, ext: nat)
    requires Tiled(v, h, end) && i + 1 < |v|
    ensures IsLive(SetUsed(v, i, used), off, ext) <==>
            if off == v[i].off then used && ext == h + Room(v, i, h) else IsLive(v, off, ext)
  {
    var w := SetUsed(v, i, used);
    SetUsedTiled(v, h, end, i, used);
    if used { assert LiveAt(w, i, v[i].off, w[i + 1].off - v[i].off) by { assert Apart(v, i, h); } }
    if IsLive(w, off, ext) {
      var k: nat :| LiveAt(w, k, off, ext);
      if off == v[i].off { IndexIsUnique(w, h, end, i, k); } else { assert LiveAt(v, k, off, ext); }
    }
    if IsLive(v, off, ext) && off != v[i].off {
      var k: nat :| LiveAt(v, k, off, ext);
      assert LiveAt(w, k, off, ext);
    }
  }

  lemma NotLive(v: seq<Block>, h: nat, end: nat, i: nat, off: nat, ext: nat)
    requires Tiled(v, h, end) && i + 1 < |v| && v[i].off == off
    ensures IsLive(v, off, ext) <==> v[i].used && ext == h + Room(v, i, h)
  {
    if IsLive(v, off, ext) {
      var k: nat :| LiveAt(v, k, off, ext);
      IndexIsUnique(v, h, end, i, k);
    }
    if v[i].used && ext == h + Room(v, i, h) { assert LiveAt(v, i, off, ext); }
  }

  lemma AllocLive(v: seq<Block>, h: nat, end: nat, i: nat, size: nat, off: nat, ext: nat)
    requires WellFormed(v, h, end) && h % 4 == 0
    requires i + 1 < |v| && !v[i].used && size % 4 == 0 && size <= Room(v, i, h)
    ensures var w := Alloc(v, i, size, h);
      i + 1 < |w| && (IsLive(w, off, ext) <==> IsLive(v, off, ext) || (off == v[i].off && ext == h + Room(w, i, h)))
  {
    AllocKeeps(v, h, end, i, size);
    var u, w := SetUsed(v, i, true), Alloc(v, i, size, h);
    SetUsedLive(v, h, end, i, true, off, ext);
    if w != u {
      SetUsedTiled(v, h, end, i, true);
      CutLive(u, h, end, i, size, off, ext);
    }
    if off == v[i].off { NotLive(v, h, end, i, off, ext); }
  }

  lemma ReleaseLive(v: seq<Block>, h: nat, end: nat, i: nat, off: nat, ext: nat)
    requires WellFormed(v, h, end) && i + 1 < |v| && v[i].used
    ensures IsLive(Release(v, i), off, ext) <==> IsLive(v, off, ext) && off != v[i].off
  {
    SetUsedLive(v, h, end, i, false, off, ext);
    PlugLive(SetUsed(v, i, false), i, off, ext);
  }

  lemma ShrinkLive(v: seq<Block>, h: nat, end: nat, i: nat, size: nat, off: nat, ext: nat)
    requires WellFormed(v, h, end) && h % 4 == 0
    requires i + 1 < |v| && v[i].used && size % 4 == 0 && size + h <= Room(v, i, h)
    ensures IsLive(Shrink(v, i, size, h), off, ext) <==>
            if off == v[i].off then ext == h + size else IsLive(v, off, ext)
  {
    CutLive(v, h, end, i, size, off, ext);
    PlugLive(Cut(v, i, size, h), i + 1, off, ext);
  }

  lemma GrowLive(v: seq<Block>, h: nat, end: nat, i: nat, size: nat, off: nat, ext: nat)
    requires WellFormed(v, h, end) && h % 4 == 0
    requires i + 2 < |v| && v[i].used && !v[i + 1].used
    requires size % 4 == 0 && v[i].off + h + size + h <= v[i + 2].off
    ensures IsLive(Grow(v, i, size, h), off, ext) <==>
            if off == v[i].off then ext == h + size else IsLive(v, off, ext)
  {
    var u := Swallow(v, i);
    SwallowTiled(v, h, end, i);
    CutLive(u, h, end, i, size, off, ext);
    if off != v[i].off && IsLive(v, off, ext) {
      var k: nat :| LiveAt(v, k, off, ext);
      assert LiveAt(u, if k < i then k else k - 1, off, ext);
    }
    if off != v[i].off && IsLive(u, off, ext) {
      var k: nat :| LiveAt(u, k, off, ext);
      assert LiveAt(v, if k < i then k else k + 1, off, ext);
    }
  }

  // ----- the live set determines the layout -----

  ghost predicate SameLive(v: seq<Block>, w: seq<Block>)
  {
    forall off: nat, ext: nat :: IsLive(v, off, ext) <==> IsLive(w, off, ext)
  }

  /** Rows with the same live blocks agree on their first `n` blocks (by induction on `n`). */
  lemma {:induction false} SamePrefix(v: seq<Block>, w: seq<Block>, h: nat, end: nat, n: nat)
    requires WellFormed(v, h, end) && WellFormed(w, h, end) && SameLive(v, w)
    requires n <= |v| && n <= |w|
    ensures v[..n] == w[..n]
  {
    if n == 0 {
    } else {
      SamePrefix(v, w, h, end, n - 1);
      var k := n - 1;
      if k > 0 {
        assert v[k - 1] == v[..k][k - 1] == w[..k][k - 1] == w[k - 1];
        if v[k - 1].used {
          LiveNext(v, w, h, end, k - 1);
        } else {
          assert Guarded(v, k - 1) && Guarded(w, k - 1);
          NoUsedInGap(v, w, h, end, k);
          NoUsedInGap(w, v, h, end, k);
        }
      }
      SameFlag(v, w, h, end, k);
      SameFlag(w, v, h, end, k);
      assert v[..n] == v[..k] + [v[k]] && w[..n] == w[..k] + [w[k]];
    }
  }

  lemma LiveNext(v: seq<Block>, w: seq<Block>, h: nat, end: nat, k: nat)
    requires Tiled(v, h, end) && Tiled(w, h, end) && SameLive(v, w)
    requires k + 1 < |v| && k + 1 < |w| && v[k] == w[k] && v[k].used
    ensures v[k + 1].off == w[k + 1].off
  {
    assert Apart(v, k, h);
    var off, ext := v[k].off, v[k + 1].off - v[k].off;
    assert LiveAt(v, k, off, ext);
    assert IsLive(w, off, ext);
    NotLive(w, h, end, k, off, ext);
  }

  lemma NoUsedInGap(v: seq<Block>, w: seq<Block>, h: nat, end: nat, k: nat)
    requires Tiled(v, h, end) && Tiled(w, h, end) && SameLive(v, w)
    requires 0 < k < |v| && k < |w| && v[k - 1] == w[k - 1] && v[k].used
    ensures v[k].off >= w[k].off
  {
    if k < |w| - 1 { InOrder(w, h, k, |w| - 1); }
    if k < |v| - 1 {
      assert Apart(v, k, h) && Apart(v, k - 1, h);
      var off, ext := v[k].off, v[k + 1].off - v[k].off;
      assert LiveAt(v, k, off, ext);
      assert IsLive(w, off, ext);
      var j: nat :| LiveAt(w, j, off, ext);
      if j < k - 1 { InOrder(w, h, j, k - 1); }
      if j > k { InOrder(w, h, k, j); }
    }
  }

  lemma SameFlag(v: seq<Block>, w: seq<Block>, h: nat, end: nat, k: nat)
    requires Tiled(v, h, end) && Tiled(w, h, end) && SameLive(v, w)
    requires k < |v| && k < |w| && v[k].off == w[k].off
    ensures v[k].used ==> w[k].used
  {
    if v[k].used {
      if k == |v| - 1 {
        IndexIsUnique(w, h, end, k, |w| - 1);
      } else if k < |w| - 1 {
        assert Apart(v, k, h);
        var off, ext := v[k].off, v[k + 1].off - v[k].off;
        assert LiveAt(v, k, off, ext);
        assert IsLive(w, off, ext);
        NotLive(w, h, end, k, off, ext);
      }
    }
  }

  /** Canonicity: a heap's whole layout is a function of which blocks are live.  The order in which
      blocks were taken and given back leaves no trace. */
  lemma LiveSetDeterminesLayout(v: seq<Block>, w: seq<Block>, h: nat, end: nat)
    requires WellFormed(v, h, end) && WellFormed(w, h, end) && SameLive(v, w)
    ensures v == w
  {
    var n := if |v| < |w| then |v| else |w|;
    SamePrefix(v, w, h, end, n);
    assert v[n - 1] == v[..n][n - 1] && w[n - 1] == w[..n][n - 1];
    if |v| < |w| {
      IndexIsUnique(w, h, end, n - 1, |w| - 1);
    } else if |w| < |v| {
      IndexIsUnique(v, h, end, n - 1, |v| - 1);
    }
    assert v[..n] == v && w[..n] == w;
  }

  /** Giving a block straight back undoes the allocation, split or not. */
  lemma ReleaseUndoesAlloc(v: seq<Block>, h: nat, end: nat, i: nat, size: nat)
    requires WellFormed(v, h, end) && h % 4 == 0
    requires i + 1 < |v| && !v[i].used && size % 4 == 0 && size <= Room(v, i, h)
    ensures i + 1 < |Alloc(v, i, size, h)| && Release(Alloc(v, i, size, h), i) == v
  {
    var w := Alloc(v, i, size, h);
    AllocKeeps(v, h, end, i, size);
    ReleaseKeeps(w, h, end, i);
    forall off: nat, ext: nat ensures IsLive(Release(w, i), off, ext) <==> IsLive(v, off, ext) {
      AllocLive(v, h, end, i, size, off, ext);
      ReleaseLive(w, h, end, i, off, ext);
      if off == v[i].off { NotLive(v, h, end, i, off, ext); }
    }
    LiveSetDeterminesLayout(Release(w, i), v, h, end);
  }

  /** Two blocks can be given back in either order. */
  lemma ReleasesCommute(v: seq<Block>, h: nat, end: nat, i: nat, j: nat, i': nat, j': nat)
    requires WellFormed(v, h, end) && i + 1 < |v| && j + 1 < |v| && i != j && v[i].used && v[j].used
    requires j' + 1 < |Release(v, i)| && Release(v, i)[j'] == v[j]
    requires i' + 1 < |Release(v, j)| && Release(v, j)[i'] == v[i]
    ensures Release(Release(v, i), j') == Release(Release(v, j), i')
  {
    ReleaseKeeps(v, h, end, i);
    ReleaseKeeps(v, h, end, j);
    var a, b := Release(Release(v, i), j'), Release(Release(v, j), i');
    ReleaseKeeps(Release(v, i), h, end, j');
    ReleaseKeeps(Release(v, j), h, end, i');
    forall off: nat, ext: nat ensures IsLive(a, off, ext) <==> IsLive(b, off, ext) {
      ReleaseLive(v, h, end, i, off, ext);
      ReleaseLive(v, h, end, j, off, ext);
      ReleaseLive(Release(v, i), h, end, j', off, ext);
      ReleaseLive(Release(v, j), h, end, i', off, ext);
    }
    LiveSetDeterminesLayout(a, b, h, end);
  }

  /** Once nothing is live the heap is one free block again, however it got there. */
  lemma NothingLiveMeansOneFreeBlock(v: seq<Block>, h: nat, end: nat)
    requires WellFormed(v, h, end)
    ensures (forall off: nat, ext: nat :: !IsLive(v, off, ext)) <==> v == [Block(0, false), Block(end, true)]
  {
    assert Apart(v, 0, h) && Guarded(v, 0);
    if v[0].used {
      assert LiveAt(v, 0, v[0].off, v[1].off - v[0].off);
      assert IsLive(v, v[0].off, v[1].off - v[0].off);
    } else if |v| > 2 {
      assert Apart(v, 1, h);
      assert LiveAt(v, 1, v[1].off, v[2].off - v[1].off);
      assert IsLive(v, v[1].off, v[2].off - v[1].off);
    } else {
      assert v == [Block(0, false), Block(end, true)];
    }
  }

  /** Payloads of different live blocks are disjoint, word-aligned, inside the heap and clear of every header. */
  lemma LivePayloadsDisjoint(v: seq<Block>, h: nat, end: nat, o1: nat, e1: nat, o2: nat, e2: nat)
    requires Tiled(v, h, end) && h % 4 == 0 && IsLive(v, o1, e1) && IsLive(v, o2, e2) && (o1, e1) != (o2, e2)
    ensures o1 + e1 <= o2 || o2 + e2 <= o1
    ensures (o1 + h) % 4 == 0 && e1 % 4 == 0 && h <= e1 && o1 + e1 <= end
  {
    var i: nat :| LiveAt(v, i, o1, e1);
    var j: nat :| LiveAt(v, j, o2, e2);
    LiveInside(v, h, end, i, o1, e1);
    if i + 1 < j { InOrder(v, h, i + 1, j); }
    if j + 1 < i { InOrder(v, h, j + 1, i); }
  }

  lemma LiveInside(v: seq<Block>, h: nat, end: nat, i: nat, off: nat, ext: nat)
    requires Tiled(v, h, end) && h % 4 == 0 && LiveAt(v, i, off, ext)
    ensures (off + h) % 4 == 0 && ext % 4 == 0 && h <= ext && off + ext <= end
  {
    assert Aligned(v[i]) && Aligned(v[i + 1]) && Apart(v, i, h);
    LastOffset(v, h, end, i + 1);
    Difference4(off, h, ext);
  }

  lemma LivePayloadsAligned(v: seq<Block>, h: nat, end: nat, off: nat, ext: nat)
    requires Tiled(v, h, end) && h % 4 == 0 && IsLive(v, off, ext)
    ensures (off + h) % 4 == 0
  {
    var i: nat :| LiveAt(v, i, off, ext);
    LiveInside(v, h, end, i, off, ext);
  }

  lemma Difference4(off: nat, h: nat, ext: nat)
    requires off % 4 == 0 && h % 4 == 0 && (off + ext) % 4 == 0
    ensures (off + h) % 4 == 0 && ext % 4 == 0
  {
  }

  lemma LivePayloadClearOfHeaders(v: seq<Block>, h: nat, end: nat, off: nat, ext: nat, k: nat)
    requires Tiled(v, h, end) && IsLive(v, off, ext) && k < |v|
    ensures v[k].off + h <= off + h || off + ext <= v[k].off
  {
    var i: nat :| LiveAt(v, i, off, ext);
    if k < i { InOrder(v, h, k, i); }
    if i + 1 < k { InOrder(v, h, i + 1, k); }
  }
}
