/** How memheap.c keeps its two lists in the block headers: a circular list of all blocks in address order, and a
    circular list of the free ones through the pool's free_header.

    Each header field is a map from the header's offset in the pool; the free_header has the offset HEAD. */
module MemheapLists {
  import opened Sequences
  import opened Layout
  import opened MemheapPool

  type Links = map<int, int>

  const HEAD := -2    // &heap->free_header; NULL is RT_NULL

  // ----- the block list -----

  ghost function NextOff(v: seq<Block>, i: nat): nat
    requires i < |v|
  {
    if i + 1 < |v| then v[i + 1].off else v[0].off
  }

  ghost function PrevOff(v: seq<Block>, i: nat): nat
    requires i < |v|
  {
    if i > 0 then v[i - 1].off else v[|v| - 1].off
  }

  ghost predicate ItemAt(used: map<int, bool>, next: Links, prev: Links, v: seq<Block>, i: nat)
    requires i < |v|
  {
    var o := v[i].off;
    o in used && o in next && o in prev && used[o] == v[i].used && next[o] == NextOff(v, i) && prev[o] == PrevOff(v, i)
  }

  ghost predicate Chained(used: map<int, bool>, next: Links, prev: Links, v: seq<Block>)
  {
    forall i: nat :: i < |v| ==> ItemAt(used, next, prev, v, i)
  }

  lemma OffsetsDiffer(v: seq<Block>, end: nat, i: nat, j: nat)
    requires Tiled(v, HEADER, end) && i < |v| && j < |v| && i != j
    ensures v[i].off != v[j].off
  {
    if i < j { InOrder(v, HEADER, i, j); } else { InOrder(v, HEADER, j, i); }
  }

  lemma MarkChained(used: map<int, bool>, next: Links, prev: Links, v: seq<Block>, end: nat, i: nat, b: bool)
    requires Tiled(v, HEADER, end) && Chained(used, next, prev, v) && i + 1 < |v|
    ensures Chained(used[v[i].off := b], next, prev, SetUsed(v, i, b))
  {
    var w, used' := SetUsed(v, i, b), used[v[i].off := b];
    forall k: nat | k < |w| ensures ItemAt(used', next, prev, w, k) {
      assert ItemAt(used, next, prev, v, k);
      if k != i { OffsetsDiffer(v, end, i, k); }
    }
  }

  /** A header at `n`, inside block `i`, linked in behind it. */
  lemma CutChained(used: map<int, bool>, next: Links, prev: Links, v: seq<Block>, end: nat, i: nat, size: nat)
    requires Tiled(v, HEADER, end) && Chained(used, next, prev, v) && i + 1 < |v| && size + HEADER <= Room(v, i, HEADER)
    ensures var n, a := v[i].off + HEADER + size, v[i + 1].off;
      Chained(used[n := false], next[n := a][v[i].off := n], prev[n := v[i].off][a := n], Cut(v, i, size, HEADER))
  {
    var n, a := v[i].off + HEADER + size, v[i + 1].off;
    var w := Cut(v, i, size, HEADER);
    var used', next', prev' := used[n := false], next[n := a][v[i].off := n], prev[n := v[i].off][a := n];
    InsideIsNew(v, end, i, n);
    forall k: nat | k < |w| ensures ItemAt(used', next', prev', w, k) {
      if k == i + 1 {
        assert w[k] == Block(n, false) && w[i] == v[i] && w[i + 2] == v[i + 1];
      } else {
        var j := if k <= i then k else k - 1;
        assert w[k] == v[j] && v[j] in v;
        assert ItemAt(used, next, prev, v, j);
        if j != i { OffsetsDiffer(v, end, i, j); }
        if j != i + 1 { OffsetsDiffer(v, end, i + 1, j); }
      }
    }
  }

  /** The block after block `i` linked out. */
  lemma SwallowChained(used: map<int, bool>, next: Links, prev: Links, v: seq<Block>, end: nat, i: nat)
    requires Tiled(v, HEADER, end) && Chained(used, next, prev, v) && i + 2 < |v|
    ensures Chained(used, next[v[i].off := v[i + 2].off], prev[v[i + 2].off := v[i].off], Swallow(v, i))
  {
    var w := Swallow(v, i);
    var next', prev' := next[v[i].off := v[i + 2].off], prev[v[i + 2].off := v[i].off];
    forall k: nat | k < |w| ensures ItemAt(used, next', prev', w, k) {
      var j := if k <= i then k else k + 1;
      assert w[k] == v[j];
      assert ItemAt(used, next, prev, v, j);
      if j != i { OffsetsDiffer(v, end, i, j); }
      if j != i + 2 { OffsetsDiffer(v, end, i + 2, j); }
    }
  }

  // ----- the free list -----

  /** The offset at place `i` of the ring; places -1 and |f| are both the free_header. */
  ghost function Cell(f: seq<nat>, i: int): int
  {
    if 0 <= i < |f| then f[i] else HEAD
  }

  ghost predicate Joined(nextFree: Links, prevFree: Links, f: seq<nat>, i: int)
  {
    var a, b := Cell(f, i), Cell(f, i + 1);
    a in nextFree && b in prevFree && nextFree[a] == b && prevFree[b] == a
  }

  ghost predicate Threaded(nextFree: Links, prevFree: Links, f: seq<nat>)
  {
    NoDup(f) && forall i: int :: -1 <= i < |f| ==> Joined(nextFree, prevFree, f, i)
  }

  lemma Neighbours(nextFree: Links, prevFree: Links, f: seq<nat>, k: int)
    requires Threaded(nextFree, prevFree, f) && -1 <= k < |f|
    ensures var x := Cell(f, k);
      && x in nextFree && x in prevFree && nextFree[x] == Cell(f, k + 1)
      && prevFree[x] == Cell(f, if k < 0 then |f| - 1 else k - 1)
  {
    assert Joined(nextFree, prevFree, f, k);
    assert Joined(nextFree, prevFree, f, if k < 0 then |f| - 1 else k - 1);
  }

  /** Linking out the entry at place `k`. */
  lemma UnlinkThreaded(nextFree: Links, prevFree: Links, f: seq<nat>, k: nat)
    requires Threaded(nextFree, prevFree, f) && k < |f|
    ensures var a, b := Cell(f, k - 1), Cell(f, k + 1);
      Threaded(nextFree[a := b], prevFree[b := a], Without(f, f[k]))
  {
    var a, b := Cell(f, k - 1), Cell(f, k + 1);
    var nf, pf, g := nextFree[a := b], prevFree[b := a], Without(f, f[k]);
    WithoutAt(f, k);
    WithoutMembers(f, f[k]);
    forall i: int | -1 <= i < |g| ensures Joined(nf, pf, g, i) {
      if i < k - 1 {
        assert Joined(nextFree, prevFree, f, i);
      } else if i == k - 1 {
        assert Cell(g, i) == a && Cell(g, i + 1) == b;
      } else {
        assert Joined(nextFree, prevFree, f, i + 1);
        assert Cell(g, i) == Cell(f, i + 1) && Cell(g, i + 1) == Cell(f, i + 2);
      }
    }
  }

  /** Linking in a new entry right behind the free_header. */
  lemma FrontThreaded(nextFree: Links, prevFree: Links, f: seq<nat>, x: nat)
    requires Threaded(nextFree, prevFree, f) && x !in f
    ensures var a := Cell(f, 0);
      Threaded(nextFree[x := a][HEAD := x], prevFree[x := HEAD][a := x], [x] + f)
  {
    var a := Cell(f, 0);
    var nf, pf, g := nextFree[x := a][HEAD := x], prevFree[x := HEAD][a := x], [x] + f;
    ConsMembers(x, f);
    forall i: int | -1 <= i < |g| ensures Joined(nf, pf, g, i) {
      if i == -1 {
        assert Cell(g, 0) == x;
      } else if i == 0 {
        assert Cell(g, 1) == a;
      } else {
        assert Joined(nextFree, prevFree, f, i - 1);
        assert Cell(g, i) == Cell(f, i - 1) && Cell(g, i + 1) == Cell(f, i);
      }
    }
  }

  /** Other headers' links do not matter. */
  lemma ThreadedElsewhere(nextFree: Links, prevFree: Links, f: seq<nat>, x: nat, p: int, q: int)
    requires Threaded(nextFree, prevFree, f) && x !in f
    ensures Threaded(nextFree[x := p], prevFree[x := q], f)
  {
    var nf, pf := nextFree[x := p], prevFree[x := q];
    forall i: int | -1 <= i < |f| ensures Joined(nf, pf, f, i) {
      assert Joined(nextFree, prevFree, f, i);
    }
  }
}
