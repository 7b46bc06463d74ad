/** The allocator of memheap.c over its two linked lists. */
module Memheap {
  import opened Sequences
  import opened Layout
  import opened LayoutLive
  import opened LayoutTotals
  import opened HeapCalls
  import opened Slots
  import opened MemheapPool
  import opened MemheapLists
  import opened Words

  // ----- searching the free list -----

  ghost predicate BigAt(v: seq<Block>, i: nat, off: nat, n: nat)
  {
    i + 1 < |v| && v[i].off == off && Room(v, i, HEADER) >= n
  }

  ghost predicate Big(v: seq<Block>, off: nat, n: nat)
  {
    exists i: nat :: BigAt(v, i, off, n)
  }

  /** The search stops at place `j` of the free list. */
  ghost predicate FirstBig(p: Pool, j: nat, n: nat)
  {
    j < |p.free| && Big(p.blocks, p.free[j], n) && forall k: nat :: k < j ==> !Big(p.blocks, p.free[k], n)
  }

  ghost predicate NoneBig(p: Pool, n: nat)
  {
    forall k: nat :: k < |p.free| ==> !Big(p.blocks, p.free[k], n)
  }

  lemma NotBig(v: seq<Block>, end: nat, i: nat, n: nat)
    requires Tiled(v, HEADER, end) && i + 1 < |v|
    ensures Big(v, v[i].off, n) <==> Room(v, i, HEADER) >= n
  {
    if Big(v, v[i].off, n) {
      var j: nat :| BigAt(v, j, v[i].off, n);
      IndexIsUnique(v, HEADER, end, i, j);
    }
    if Room(v, i, HEADER) >= n { assert BigAt(v, i, v[i].off, n); }
  }

  /** Every listed offset is a free block's. */
  ghost predicate FreeAt(v: seq<Block>, i: nat, off: int)
  {
    i + 1 < |v| && off == v[i].off && !v[i].used
  }

  ghost predicate UsedAt(v: seq<Block>, i: nat, off: int)
  {
    i + 1 < |v| && off == v[i].off && v[i].used
  }

  lemma ListedBlock(p: Pool, end: nat, j: nat)
    requires Agree(p, end) && j < |p.free|
    ensures exists i: nat :: FreeAt(p.blocks, i, p.free[j])
  {
    var v := p.blocks;
    assert ListedAt(v, p.free, p.free[j]);
    var i: nat :| i < |v| && v[i] == Block(p.free[j], false);
    assert FreeAt(v, i, p.free[j]);
  }

  /** Against the sum of all free payload the test is strict: what it refuses although a block is large enough is
      exactly a request for all of it. */
  lemma OnlyEverythingRefused(p: Pool, end: nat, i: nat, n: nat)
    requires Agree(p, end) && i + 1 < |p.blocks| && !p.blocks[i].used && Room(p.blocks, i, HEADER) >= n
    ensures n >= FreeRoom(p.blocks, HEADER) <==> n == Room(p.blocks, i, HEADER) == FreeRoom(p.blocks, HEADER)
  {
    RoomInTotal(p.blocks, end, i);
  }

  lemma RoomInTotal(v: seq<Block>, end: nat, i: nat)
    requires Tiled(v, HEADER, end) && i + 1 < |v| && !v[i].used
    ensures 0 <= Room(v, i, HEADER) <= FreeRoom(v, HEADER) <= end
  {
    assert Apart(v, i, HEADER);
    TotalAround(v, false, HEADER, i);
    var a, b := v[..i + 1], v[i + 1..];
    forall k: nat | k + 1 < |a| ensures Apart(a, k, HEADER) { assert Apart(v, k, HEADER); }
    forall k: nat | k + 1 < |b| ensures Apart(b, k, HEADER) { assert Apart(v, i + 1 + k, HEADER); }
    TotalNonNegative(a, HEADER, false, HEADER);
    TotalNonNegative(b, HEADER, false, HEADER);
    FreeBelowEnd(v, end);
  }

  lemma FreeBelowEnd(v: seq<Block>, end: nat)
    requires Tiled(v, HEADER, end)
    ensures 0 <= FreeRoom(v, HEADER) <= end
  {
    TotalNonNegative(v, HEADER, false, HEADER);
    TotalNonNegative(v, HEADER, true, 0);
    UsedPlusFree(v);
    LessHeaders(v);
  }

  lemma {:induction false} LessHeaders(v: seq<Block>)
    ensures Total(v, false, HEADER) <= Total(v, false, 0)
  {
    if |v| >= 2 { LessHeaders(v[1..]); }
  }

  // ----- growing in place -----

  /** The code's test, in 32-bit arithmetic. */
  function GrowTest(room: nat, nextRoom: nat, n: nat): bool
  {
    nextRoom + room > (n + MIN_SIZE) % TWO32
  }

  /** The test lets through only what fits, with a smallest free block to spare, exactly when newsize + MINIALLOC
      does not wrap. */
  lemma GrowTestExact(room: nat, nextRoom: nat, n: nat)
    requires n < TWO32 && n % 4 == 0 && MIN_SIZE <= room && MIN_SIZE <= nextRoom && room + nextRoom < TWO32
    ensures (GrowTest(room, nextRoom, n) ==> n + MIN_SIZE < room + nextRoom) <==> n + MIN_SIZE < TWO32
  {
  }

  lemma GrowTestMeans(room: nat, nextRoom: nat, n: nat)
    requires n + MIN_SIZE < TWO32
    ensures GrowTest(room, nextRoom, n) <==> n + MIN_SIZE < room + nextRoom
  {
  }

  /** A request of almost 2^32 bytes passes the test although 24 bytes are there. */
  lemma GrowTestWraps()
    ensures GrowTest(12, 12, Need(0xffff_fff0 + 5))
  {
  }

  // ----- payload words -----

  /** At most the header at `n` was written. */
  ghost predicate OnlyHeader(m0: Memory, m1: Memory, n: nat)
  {
    m1.Keys == m0.Keys && forall a: nat {:trigger m1[a]} :: a in m0 && (a < n || n + HEADER <= a) ==> m1[a] == m0[a]
  }

  /** The payload's words where a header was just written read as something else. */
  function Scribbled(m: Memory, n: nat): (r: Memory)
    ensures OnlyHeader(m, r, n)
  {
    map a | a in m :: if n <= a < n + HEADER then 0 else m[a]
  }

  /** A header written inside a free block touches nobody's payload. */
  lemma HeaderInFree(m0: Memory, m1: Memory, v: seq<Block>, end: nat, i: nat, n: nat)
    requires Tiled(v, HEADER, end) && i + 1 < |v| && !v[i].used && v[i].off <= n && n + HEADER <= v[i + 1].off
    requires OnlyHeader(m0, m1, n)
    ensures KeepsOwned(m0, m1, v, HEADER)
  {
    forall a: nat | a in m0 && Owned(v, a, HEADER) ensures m1[a] == m0[a] { NotInFreeBlock(v, HEADER, end, i, a); }
  }

  // ----- the pool in memory -----

  /** Addresses are offsets from start_addr.  `blocks` and `list` are what the headers spell out; `history` every
      value pool_size - available_size has had. */
  class MemHeap {
    var used: map<int, bool>          // the low bit of magic
    var next: Links
    var prev: Links
    var nextFree: Links
    var prevFree: Links
    var words: Memory
    var poolSize: nat
    var available: nat                // available_size
    var maxUsed: nat                  // max_used_size

    ghost var blocks: seq<Block>
    ghost var list: seq<nat>
    ghost var history: seq<nat>

    ghost function Now(): Pool
      reads this
    {
      Pool(blocks, list)
    }

    ghost function End(): int
      reads this
    {
      poolSize - HEADER
    }

    /** The headers spell out both lists. */
    ghost predicate Linked()
      reads this
    {
      && 2 * HEADER <= poolSize < TWO32 && poolSize % 4 == 0
      && Tiled(blocks, HEADER, End())
      && Chained(used, next, prev, blocks)
      && Threaded(nextFree, prevFree, list)
      && Backed(words, poolSize)
    }

    ghost predicate Counted()
      reads this
    {
      && available == FreeRoom(blocks, HEADER) && available <= poolSize
      && history != [] && history[|history| - 1] == poolSize - available
      && Peak(history, maxUsed)
    }

    ghost predicate Valid()
      reads this
    {
      Linked() && Agree(Now(), End()) && Counted()
    }

    /** The client holds block `i` and knows it by `ptr`. */
    ghost predicate Holds(i: nat, ptr: int)
      reads this
    {
      i + 1 < |blocks| && blocks[i].used && ptr == blocks[i].off + HEADER
    }

    /** rt_memheap_init: `ram` is whatever the memory held before.  A pool too small for two headers makes
        available_size wrap. */
    constructor (size: nat, ram: nat -> nat)
      requires 2 * HEADER <= size - size % 4 && size < TWO32
      ensures Valid() && poolSize == size - size % 4
      ensures Now() == Pool([Block(0, false), Block(End(), true)], [0]) && available == poolSize - 2 * HEADER
      ensures maxUsed == poolSize - available
    {
      var pool := size - size % 4;
      var tail := pool - HEADER;
      poolSize, available := pool, pool - 2 * HEADER;
      maxUsed := 2 * HEADER;
      used := map[0 := false, tail := true];
      next := map[0 := tail, tail := 0];
      prev := map[0 := tail, tail := 0];
      nextFree := map[HEAD := 0, 0 := HEAD, tail := NULL];
      prevFree := map[HEAD := 0, 0 := HEAD, tail := NULL];
      words := map a: nat | a < pool && a % 4 == 0 :: ram(a);
      blocks, list, history := [Block(0, false), Block(tail, true)], [0], [2 * HEADER];
      new;
      FreshPool(tail);
      assert ItemAt(used, next, prev, blocks, 0) && ItemAt(used, next, prev, blocks, 1);
      assert Joined(nextFree, prevFree, list, -1) && Joined(nextFree, prevFree, list, 0);
    }

    // ----- the free list -----

    /** Link `x` out of the free list. */
    method Unlink(x: int)
      requires Linked() && x in list
      modifies this`nextFree, this`prevFree, this`list
      ensures Linked() && list == Without(old(list), x)
    {
      ghost var k :| 0 <= k < |list| && list[k] == x;
      Neighbours(nextFree, prevFree, list, k);
      Neighbours(nextFree, prevFree, list, k - 1);
      UnlinkThreaded(nextFree, prevFree, list, k);
      var after, before := nextFree[x], prevFree[x];
      prevFree := prevFree[after := before];
      nextFree := nextFree[before := after];
      list := Without(list, x);
    }

    /** header_ptr->next_free = header_ptr->prev_free = RT_NULL, once it is out of the list. */
    method ClearLinks(x: int)
      requires Linked() && x !in list && x >= 0
      modifies this`nextFree, this`prevFree
      ensures Linked()
    {
      ThreadedElsewhere(nextFree, prevFree, list, x, NULL, NULL);
      nextFree := nextFree[x := NULL];
      prevFree := prevFree[x := NULL];
    }

    /** Link `x` in at the front of the free list. */
    method LinkFront(x: int)
      requires Linked() && x >= 0 && x !in list
      modifies this`nextFree, this`prevFree, this`list
      ensures Linked() && list == [x] + old(list)
    {
      Neighbours(nextFree, prevFree, list, -1);
      FrontThreaded(nextFree, prevFree, list, x);
      nextFree := nextFree[x := nextFree[HEAD]];
      prevFree := prevFree[x := HEAD];
      prevFree := prevFree[nextFree[HEAD] := x];
      nextFree := nextFree[HEAD := x];
      list := [x] + list;
    }

    // ----- the block list -----

    /** header_ptr->magic = RT_MEMHEAP_MAGIC | flag. */
    method Mark(ptr: int, flag: bool, ghost i: nat)
      requires Linked() && i + 1 < |blocks| && blocks[i].off == ptr
      modifies this`used, this`blocks
      ensures Linked() && blocks == SetUsed(old(blocks), i, flag)
    {
      SetUsedTiled(blocks, HEADER, End(), i, flag);
      MarkChained(used, next, prev, blocks, End(), i, flag);
      used := used[ptr := flag];
      blocks := SetUsed(blocks, i, flag);
    }

    /** A free header at `n`, linked in behind the block at `ptr`. */
    method Split(ptr: int, n: int, ghost i: nat, ghost size: nat)
      requires Linked() && i + 1 < |blocks| && blocks[i].off == ptr && n == ptr + HEADER + size
      requires size % 4 == 0 && size + HEADER <= Room(blocks, i, HEADER)
      modifies this`used, this`next, this`prev, this`words, this`blocks
      ensures Linked() && blocks == Cut(old(blocks), i, size, HEADER) && OnlyHeader(old(words), words, n)
    {
      assert ItemAt(used, next, prev, blocks, i);
      CutTiled(blocks, HEADER, End(), i, size);
      CutChained(used, next, prev, blocks, End(), i, size);
      used := used[n := false];
      words := Scribbled(words, n);
      prev := prev[n := ptr];
      next := next[n := next[ptr]];
      prev := prev[next[ptr] := n];
      next := next[ptr := n];
      blocks := Cut(blocks, i, size, HEADER);
    }

    /** Link the block behind the one at `ptr` out of the block list. */
    method Absorb(ptr: int, ghost i: nat)
      requires Linked() && i + 2 < |blocks| && blocks[i].off == ptr
      modifies this`next, this`prev, this`blocks
      ensures Linked() && blocks == Swallow(old(blocks), i)
    {
      assert ItemAt(used, next, prev, blocks, i) && ItemAt(used, next, prev, blocks, i + 1);
      SwallowTiled(blocks, HEADER, End(), i);
      SwallowChained(used, next, prev, blocks, End(), i);
      var after := next[next[ptr]];
      prev := prev[after := ptr];
      next := next[ptr := after];
      blocks := Swallow(blocks, i);
    }

    // ----- rt_memheap_alloc -----

    /** The search of the free list. */
    method Search(size: nat) returns (ptr: int, freeSize: int, ghost j: nat, ghost i: nat)
      requires Linked() && Agree(Now(), End()) && size > 0
      ensures freeSize >= size ==>
        && FirstBig(Now(), j, size) && ptr == list[j]
        && FreeAt(blocks, i, ptr) && freeSize == Room(blocks, i, HEADER)
      ensures freeSize < size ==> NoneBig(Now(), size)
    {
      Neighbours(nextFree, prevFree, list, -1);
      ptr, freeSize := nextFree[HEAD], 0;
      j, i := 0, 0;
      while ptr != HEAD && freeSize < size
        invariant j <= |list| && ptr == Cell(list, j)
        invariant forall k: nat :: k < j ==> !Big(blocks, list[k], size)
        invariant freeSize >= size ==>
          j < |list| && FreeAt(blocks, i, ptr) && freeSize == Room(blocks, i, HEADER) && Big(blocks, ptr, size)
        decreases |list| - j, if freeSize < size then 1 else 0
      {
        ListedBlock(Now(), End(), j);
        i :| FreeAt(blocks, i, ptr);
        assert ItemAt(used, next, prev, blocks, i);
        NotBig(blocks, End(), i, size);
        Neighbours(nextFree, prevFree, list, j);
        freeSize := next[ptr] - ptr - HEADER;
        if freeSize < size {
          ptr := nextFree[ptr];
          j := j + 1;
        }
      }
    }

    /** available_size and max_used_size once `taken` bytes were handed out. */
    method Spend(taken: nat)
      requires taken <= available <= poolSize && Peak(history, maxUsed)
      modifies this`available, this`maxUsed, this`history
      ensures available == old(available) - taken && history == old(history) + [poolSize - available]
      ensures Peak(history, maxUsed)
    {
      PeakAppend(history, maxUsed, poolSize - (available - taken));
      available := available - taken;
      if poolSize - available > maxUsed { maxUsed := poolSize - available; }
      history := history + [poolSize - available];
    }

    /** What rt_memheap_alloc does with the block it found. */
    method TakeBlock(ptr: int, freeSize: int, size: nat, ghost i: nat)
      requires Valid() && FreeAt(blocks, i, ptr) && freeSize == Room(blocks, i, HEADER) >= size && size % 4 == 0
      modifies this
      ensures Valid() && poolSize == old(poolSize) && Now() == Take(old(Now()), i, size)
      ensures KeepsOwned(old(words), words, old(blocks), HEADER) && history == old(history) + [poolSize - available]
    {
      ghost var q := Take(Now(), i, size);
      TakeAgrees(Now(), End(), i, size);
      AllocRoom(blocks, i, size, HEADER);
      RoomInTotal(blocks, End(), i);
      if freeSize >= size + HEADER + MIN_SIZE { Spend(size + HEADER); } else { Spend(freeSize); }
      Detach(ptr, freeSize, size, i);
      assert Now() == q;
    }

    /** Out of the free list, and used. */
    method Detach(ptr: int, freeSize: int, size: nat, ghost i: nat)
      requires Linked() && Agree(Now(), End()) && FreeAt(blocks, i, ptr)
      requires freeSize == Room(blocks, i, HEADER) >= size && size % 4 == 0
      modifies this`used, this`next, this`prev, this`words, this`blocks, this`nextFree, this`prevFree, this`list
      ensures Linked() && Now() == Take(old(Now()), i, size) && KeepsOwned(old(words), words, old(blocks), HEADER)
    {
      ghost var q := Take(Now(), i, size);
      FreeIsListed(Now(), i, ptr);
      MarkCut(blocks, i, size);
      if freeSize >= size + HEADER + MIN_SIZE {
        DetachFront(ptr, ptr + size + HEADER, size, i);
      } else {
        DetachWhole(ptr);
      }
      Mark(ptr, true, i);
      assert blocks == q.blocks && list == q.free;
    }

    /** Take the block out of the free list. */
    method DetachWhole(ptr: int)
      requires Linked() && ptr in list
      modifies this`nextFree, this`prevFree, this`list
      ensures Linked() && list == Without(old(list), ptr)
    {
      WithoutMembers(list, ptr);
      Unlink(ptr);
      ClearLinks(ptr);
    }

    /** Split the block and let the rest take its place, at the front of the free list. */
    method DetachFront(ptr: int, n: int, size: nat, ghost i: nat)
      requires Linked() && Agree(Now(), End()) && FreeAt(blocks, i, ptr) && ptr in list
      requires n == ptr + size + HEADER && size % 4 == 0 && size + HEADER <= Room(blocks, i, HEADER)
      modifies this`used, this`next, this`prev, this`words, this`blocks, this`nextFree, this`prevFree, this`list
      ensures Linked() && blocks == Cut(old(blocks), i, size, HEADER) && list == [n] + Without(old(list), ptr)
      ensures KeepsOwned(old(words), words, old(blocks), HEADER)
    {
      ghost var v, w := blocks, words;
      NewIsUnlisted(Now(), End(), i, n);
      WithoutMembers(list, ptr);
      Split(ptr, n, i, size);
      HeaderInFree(w, words, v, End(), i, n);
      DetachWhole(ptr);
      LinkFront(n);
    }

    /** rt_memheap_alloc.  On success the block is number `i` of the row and stood at place `j` of the free list. */
    method Alloc(size: nat) returns (r: int, ghost j: nat, ghost i: nat)
      requires Valid() && size < TWO32
      modifies this
      ensures Valid() && poolSize == old(poolSize)
      ensures r == NULL <==> Need(size) >= old(available) || NoneBig(old(Now()), Need(size))
      ensures r == NULL ==> unchanged(this)
      ensures r != NULL ==>
        && FirstBig(old(Now()), j, Need(size)) && FreeAt(old(blocks), i, old(list)[j]) && r == old(list)[j] + HEADER
        && Now() == Take(old(Now()), i, Need(size))
        && KeepsOwned(old(words), words, old(blocks), HEADER) && history == old(history) + [poolSize - available]
      // for the client: a free block that was large enough (see NeedIs), and the first such in the list
      ensures r != NULL ==>
        && r >= HEADER && i + 1 < |blocks| && blocks[i] == Block(r - HEADER, true)
        && Need(size) <= blocks[i + 1].off - blocks[i].off - HEADER < Need(size) + 36
        && i + 1 < |old(blocks)| && old(blocks)[i] == Block(r - HEADER, false)
        && j < |old(list)| && old(list)[j] == r - HEADER
      ensures r != NULL ==> forall m, x ::
        0 <= m < j && 0 <= x < |old(blocks)| - 1 && old(blocks)[x].off == old(list)[m] ==>
          old(blocks)[x + 1].off - old(blocks)[x].off - HEADER < Need(size)
      // for the others: the live blocks are the old ones and the new one, and no word of theirs has changed
      ensures r != NULL ==> forall off: nat, ext: nat :: IsLive(blocks, off, ext) <==>
        IsLive(old(blocks), off, ext) || (off + HEADER == r && ext == blocks[i + 1].off - blocks[i].off)
      ensures r != NULL ==> forall off: nat, ext: nat, a: nat ::
        IsLive(old(blocks), off, ext) && off + HEADER <= a < off + ext && a in old(words) ==>
          a in words && words[a] == old(words)[a]
      // refused though there is more left than asked for: every free block is too small
      ensures r == NULL && Need(size) < available ==>
        forall x :: 0 <= x < |blocks| - 1 && !blocks[x].used ==> blocks[x + 1].off - blocks[x].off - HEADER < Need(size)
    {
      hide Chained, Threaded, Peak, Take, KeepsOwned, IsLive, Big, Backed;
      NeedFacts(size);
      j, i := 0, 0;
      ghost var p, m0 := Now(), words;
      var n := Align4(size);
      if n < MIN_SIZE { n := MIN_SIZE; }
      if n < available {
        var ptr, freeSize;
        ptr, freeSize, j, i := Search(n);
        if freeSize >= n {
          TakeBlock(ptr, freeSize, n, i);
          TakeForClients(p, Now(), m0, words, End(), j, i, n);
          return ptr + HEADER, j, i;
        }
        NoneBigSays(p, End(), n);
      }
      return NULL, j, i;
    }

    // ----- rt_memheap_free -----

    /** available_size once `given` bytes came back; max_used_size stays. */
    method Regain(given: nat)
      requires available + given <= poolSize && poolSize - available in history && Peak(history, maxUsed)
      modifies this`available, this`history
      ensures available == old(available) + given && history == old(history) + [poolSize - available]
      ensures Peak(history, maxUsed)
    {
      PeakAppend(history, maxUsed, poolSize - (available + given));
      available := available + given;
      history := history + [poolSize - available];
    }

    /** If the previous block is free, it swallows the one at `ptr` and keeps its place in the free list. */
    method MergeLeft(ptr: int, ghost i: nat) returns (left: bool, at: int, ghost i': nat)
      requires Linked() && i + 1 < |blocks| && blocks[i].off == ptr
      modifies this`next, this`prev, this`blocks
      ensures Linked() && left == (i > 0 && !old(blocks)[i - 1].used) && blocks == MergePrev(old(blocks), i)
      ensures i' == (if left then i - 1 else i) && |blocks| - i' == |old(blocks)| - i
      ensures at == blocks[i'].off && blocks[i' + 1] == old(blocks)[i + 1]
    {
      assert ItemAt(used, next, prev, blocks, i);
      assert ItemAt(used, next, prev, blocks, if i > 0 then i - 1 else |blocks| - 1);
      left, at, i' := !used[prev[ptr]], ptr, i;
      if left {
        at, i' := prev[ptr], i - 1;
        Absorb(at, i - 1);
      }
    }

    /** If the next block is free, the one at `ptr` swallows it, and it leaves the free list. */
    method MergeRight(ptr: int, ghost i: nat) returns (right: bool)
      requires Linked() && i + 1 < |blocks| && blocks[i].off == ptr
      requires i + 2 < |blocks| && !blocks[i + 1].used ==> blocks[i + 1].off in list
      modifies this`next, this`prev, this`blocks, this`nextFree, this`prevFree, this`list
      ensures Linked() && right == (i + 2 < |old(blocks)| && !old(blocks)[i + 1].used)
      ensures blocks == MergeNext(old(blocks), i)
      ensures list == if right then Without(old(list), old(blocks)[i + 1].off) else old(list)
    {
      assert ItemAt(used, next, prev, blocks, i) && ItemAt(used, next, prev, blocks, i + 1);
      right := !used[next[ptr]];
      if right {
        var item := next[ptr];
        Absorb(ptr, i);
        Unlink(item);
      }
    }

    /** rt_memheap_free. */
    method Free(ptr: int, ghost i: nat)
      requires Valid() && (ptr == NULL || Holds(i, ptr))
      modifies this
      ensures Valid() && poolSize == old(poolSize) && maxUsed == old(maxUsed) && words == old(words)
      ensures ptr == NULL ==> unchanged(this)
      ensures ptr != NULL ==> Now() == GiveBack(old(Now()), i) && history == old(history) + [poolSize - available]
      // the block is gone; every other stays where it is, as long as it is
      ensures ptr != NULL ==> forall off: nat, ext: nat ::
        IsLive(blocks, off, ext) <==> IsLive(old(blocks), off, ext) && off + HEADER != ptr
    {
      if ptr == NULL { return; }
      GiveBackForClients(Now(), End(), i);
      hide Tiled, Chained, Threaded, Peak, GiveBack, Backed, Agree;
      FreeItem(ptr - HEADER, i);
    }

    method FreeItem(ptr: int, ghost i: nat)
      requires Valid() && i + 1 < |blocks| && blocks[i].off == ptr && blocks[i].used
      modifies this`used, this`next, this`prev, this`blocks, this`nextFree, this`prevFree, this`list
      modifies this`available, this`history
      ensures Valid() && Now() == GiveBack(old(Now()), i) && history == old(history) + [poolSize - available]
    {
      hide Tiled, Chained, Threaded, GiveBack, Backed;
      GiveBackFacts(Now(), End(), i);
      assert poolSize - available in history;
      ReturnCounted(ptr, i);
    }

    /** The return of a block, with available_size adjusted for it and for each header merged away. */
    method ReturnCounted(ptr: int, ghost i: nat)
      requires Linked() && Agree(Now(), End()) && i + 1 < |blocks| && blocks[i].off == ptr && blocks[i].used
      requires Room(blocks, i, HEADER) >= 0 && available + Given(blocks, i) <= poolSize
      requires poolSize - available in history && Peak(history, maxUsed)
      modifies this`used, this`next, this`prev, this`blocks, this`nextFree, this`prevFree, this`list
      modifies this`available, this`history
      ensures Linked() && Now() == GiveBack(old(Now()), i)
      ensures available == old(available) + Given(old(blocks), i)
      ensures history == old(history) + [poolSize - available] && Peak(history, maxUsed)
    {
      var size := ItemSize(ptr, i);
      var left, right := Return(ptr, i);
      Regain(size + (if left then HEADER else 0) + (if right then HEADER else 0));
    }

    /** Free, merge on both sides, and list what is not merged to the left. */
    method Return(ptr: int, ghost i: nat) returns (left: bool, right: bool)
      requires Linked() && Agree(Now(), End()) && i + 1 < |blocks| && blocks[i].off == ptr && blocks[i].used
      modifies this`used, this`next, this`prev, this`blocks, this`nextFree, this`prevFree, this`list
      ensures Linked() && Now() == GiveBack(old(Now()), i)
      ensures left == (i > 0 && !old(blocks)[i - 1].used)
      ensures right == (i + 2 < |old(blocks)| && !old(blocks)[i + 1].used)
    {
      hide Backed, IsLive;
      ghost var p, q := Now(), GiveBack(Now(), i);
      MergeOrder(p.blocks, i);
      OwnStaysUnlisted(p, End(), i);
      if i + 2 < |blocks| && !blocks[i + 1].used { FreeIsListed(p, i + 1, blocks[i + 1].off); }
      hide Tiled, Chained, Threaded, Backed, Agree;
      Mark(ptr, false, i);
      var at; ghost var k;
      left, at, k := MergeLeft(ptr, i);
      right := MergeRight(at, k);
      if !left { LinkFront(at); }
      assert blocks == q.blocks && list == q.free;
    }

    // ----- rt_memheap_realloc -----

    /** Grow over the free block at `nx`, and start a new free block behind. */
    method Extend(ptr: int, nx: int, taken: nat, n: nat, ghost i: nat)
      requires Valid() && UsedAt(blocks, i, ptr) && FreeAt(blocks, i + 1, nx)
      requires n % 4 == 0 && n == Room(blocks, i, HEADER) + taken && taken > 0
      requires n + MIN_SIZE < Room(blocks, i, HEADER) + Room(blocks, i + 1, HEADER)
      modifies this
      ensures Valid() && poolSize == old(poolSize) && Now() == GrowInto(old(Now()), i, n)
      ensures KeepsOwned(old(words), words, old(blocks), HEADER) && history == old(history) + [poolSize - available]
    {
      GrowIntoAgrees(Now(), End(), i, n);
      GrowRoom(blocks, i, n, HEADER);
      RoomInTotal(blocks, End(), i + 1);
      Spend(taken);
      Regrow(ptr, nx, n, i);
    }

    method Regrow(ptr: int, nx: int, n: nat, ghost i: nat)
      requires Linked() && Agree(Now(), End())
      requires UsedAt(blocks, i, ptr) && FreeAt(blocks, i + 1, nx)
      requires n % 4 == 0 && Room(blocks, i, HEADER) < n
      requires n < Room(blocks, i, HEADER) + Room(blocks, i + 1, HEADER)
      modifies this`used, this`next, this`prev, this`words, this`blocks, this`nextFree, this`prevFree, this`list
      ensures Linked() && Now() == GrowInto(old(Now()), i, n) && KeepsOwned(old(words), words, old(blocks), HEADER)
    {
      ghost var p, q, w := Now(), GrowInto(Now(), i, n), words;
      FreeIsListed(p, i + 1, nx);
      NewIsUnlisted(p, End(), i + 1, ptr + HEADER + n);
      WithoutMembers(list, nx);
      Unlink(nx);
      Absorb(ptr, i);
      Split(ptr, ptr + HEADER + n, i, n);
      LinkFront(ptr + HEADER + n);
      HeaderInFree(w, words, p.blocks, End(), i + 1, ptr + HEADER + n);
      assert blocks == q.blocks && list == q.free;
    }

    /** Keep the first `n` bytes; what is cut off merges with the next block if that is free. */
    method CutBack(ptr: int, n: nat, ghost i: nat)
      requires Valid() && UsedAt(blocks, i, ptr)
      requires n % 4 == 0 && n + HEADER <= Room(blocks, i, HEADER)
      modifies this`used, this`next, this`prev, this`words, this`blocks, this`nextFree, this`prevFree, this`list
      modifies this`available, this`history
      ensures Valid() && Now() == CutDown(old(Now()), i, n)
      ensures KeepsOwned(old(words), words, blocks, HEADER) && history == old(history) + [poolSize - available]
    {
      hide Tiled, Chained, Threaded, CutDown, KeepsOwned, Backed, Peak, WellFormed, Listed, NoDup, CutGain, NextFree;
      CutDownFacts(Now(), End(), i, n);
      assert poolSize - available in history;
      CutCounted(ptr, n, i);
    }

    /** The cut, with available_size adjusted for the block merged away and for the block listed. */
    method CutCounted(ptr: int, n: nat, ghost i: nat)
      requires Linked() && Agree(Now(), End()) && UsedAt(blocks, i, ptr)
      requires n % 4 == 0 && n + HEADER <= Room(blocks, i, HEADER)
      requires NextFree(blocks, i) <= available && available + CutGain(blocks, i, n) <= poolSize
      requires poolSize - available in history && Peak(history, maxUsed)
      modifies this`used, this`next, this`prev, this`words, this`blocks, this`nextFree, this`prevFree, this`list
      modifies this`available, this`history
      ensures Linked() && Now() == CutDown(old(Now()), i, n) && KeepsOwned(old(words), words, blocks, HEADER)
      ensures available == old(available) + CutGain(old(blocks), i, n)
      ensures history == old(history) + [poolSize - available] && Peak(history, maxUsed)
    {
      hide Tiled, Chained, Threaded, Backed, Peak, KeepsOwned, CutDown, NextFree, Agree;
      assert CutGain(blocks, i, n) >= 0;
      hide CutGain;
      var nextSize, newSize := CutAndMeasure(ptr, n, i);
      Recount(nextSize, newSize);
    }

    /** The cut, with the payload of the block merged away (or 0) and of the one listed. */
    method CutAndMeasure(ptr: int, n: nat, ghost i: nat) returns (nextSize: nat, newSize: nat)
      requires Linked() && Agree(Now(), End()) && UsedAt(blocks, i, ptr)
      requires n % 4 == 0 && n + HEADER <= Room(blocks, i, HEADER)
      modifies this`used, this`next, this`prev, this`words, this`blocks, this`nextFree, this`prevFree, this`list
      ensures Linked() && Now() == CutDown(old(Now()), i, n) && KeepsOwned(old(words), words, blocks, HEADER)
      ensures nextSize == NextFree(old(blocks), i) && newSize - nextSize == CutGain(old(blocks), i, n)
    {
      ghost var p, w := Now(), words;
      nextSize := CutLists(ptr, n, i);
      CutRoom(p, End(), i, n, w, words);
      hide Tiled, Chained, Threaded, Backed, KeepsOwned, CutDown, NextFree, CutGain;
      newSize := ItemSize(ptr + HEADER + n, i + 1);
    }

    /** available_size without the block merged away and with the one listed. */
    method Recount(gone: nat, listed: nat)
      requires gone <= available && gone <= listed && available - gone + listed <= poolSize
      requires poolSize - available in history && Peak(history, maxUsed)
      modifies this`available, this`history
      ensures available == old(available) - gone + listed && history == old(history) + [poolSize - available]
      ensures Peak(history, maxUsed)
    {
      PeakAppend(history, maxUsed, poolSize - (available - gone + listed));
      available := available - gone;
      available := available + listed;
      history := history + [poolSize - available];
    }

    /** Both lists after the cut; the payload of the free block merged away (or 0). */
    method CutLists(ptr: int, n: nat, ghost i: nat) returns (nextSize: int)
      requires Linked() && Agree(Now(), End()) && UsedAt(blocks, i, ptr)
      requires n % 4 == 0 && n + HEADER <= Room(blocks, i, HEADER)
      modifies this`used, this`next, this`prev, this`words, this`blocks, this`nextFree, this`prevFree, this`list
      ensures Linked() && Now() == CutDown(old(Now()), i, n) && nextSize == NextFree(old(blocks), i) >= 0
      ensures OnlyHeader(old(words), words, ptr + HEADER + n)
    {
      CutUnlisted(Now(), End(), i, n);
      ghost var c := Halfway(Now(), i, n);
      Split(ptr, ptr + HEADER + n, i, n);
      assert Now() == c;
      nextSize := MergeAndList(ptr + HEADER + n, i + 1);
    }

    /** Merge the new block with the next one if that is free, and list it. */
    method MergeAndList(ptr: int, ghost i: nat) returns (nextSize: int)
      requires Linked() && i + 1 < |blocks| && blocks[i].off == ptr && ptr !in Unlisted(Now(), i)
      requires i + 2 < |blocks| && !blocks[i + 1].used ==> blocks[i + 1].off in list
      modifies this`next, this`prev, this`blocks, this`nextFree, this`prevFree, this`list
      ensures Linked() && nextSize == NextFree(old(blocks), i) >= 0
      ensures blocks == MergeNext(old(blocks), i) && list == [ptr] + Unlisted(old(Now()), i)
    {
      nextSize := SizeBehind(ptr, i);
      var merged := MergeRight(ptr, i);
      LinkFront(ptr);
    }

    /** MEMITEM_SIZE. */
    method ItemSize(ptr: int, ghost i: nat) returns (size: int)
      requires Linked() && i + 1 < |blocks| && blocks[i].off == ptr
      ensures size == Room(blocks, i, HEADER) >= 0
    {
      assert ItemAt(used, next, prev, blocks, i) && Apart(blocks, i, HEADER);
      size := next[ptr] - ptr - HEADER;
    }

    /** The payload of the block after the one at `ptr`, if that is free. */
    method SizeBehind(ptr: int, ghost i: nat) returns (size: int)
      requires Linked() && i + 1 < |blocks| && blocks[i].off == ptr
      ensures size == NextFree(blocks, i) >= 0
    {
      assert ItemAt(used, next, prev, blocks, i) && ItemAt(used, next, prev, blocks, i + 1);
      if used[next[ptr]] { return 0; }
      size := ItemSize(next[ptr], i + 1);
    }

    /** rt_memheap_realloc.  When the data moved, its new block was number `k` of the row, at place `j` of the list; `o`
        and `e` are the offset and the extent of the block behind the pointer returned. */
    method Realloc(ptr: int, newsize: nat, ghost i: nat)
      returns (r: int, ghost j: nat, ghost k: nat, ghost o: nat, ghost e: nat)
      requires Valid() && newsize < TWO32 && (ptr == NULL || Holds(i, ptr))
      requires ptr != NULL && newsize != 0 ==> NoWrap(blocks, i, Need(newsize))
      modifies this
      ensures Valid() && poolSize == old(poolSize) && old(history) <= history
      ensures ptr != NULL && newsize == 0 ==> r == NULL && Now() == GiveBack(old(Now()), i)
      ensures ptr == NULL && newsize == 0 ==> r == NULL && unchanged(this)
      ensures ptr == NULL && newsize != 0 ==>
        if Cannot(old(Now()), Need(newsize)) then r == NULL && unchanged(this)
        else Taken(old(Now()), Now(), j, k, Need(newsize), r) && KeepsOwned(old(words), words, old(blocks), HEADER)
      ensures ptr != NULL && newsize != 0 ==>
        Resized(old(Now()), Now(), old(words), words, i, Need(newsize), ptr, r, j, k)
      // for the client: a pointer that comes back for a live block points to a live block that is large enough, and every
      // word is there that lies within both sizes; without one nothing has changed
      ensures ptr != NULL && newsize != 0 && r != NULL ==>
        r == o + HEADER && IsLive(blocks, o, e) && HEADER + Need(newsize) <= e
      ensures ptr != NULL && newsize != 0 && r != NULL ==>
        forall a: nat, b: nat ::
          (a % 4 == 0 && a in old(words) && b in words && ptr <= a < old(blocks)[i + 1].off
           && a - ptr == b - r < Need(newsize))
            ==> words[b] == old(words)[a]
      ensures ptr != NULL && newsize != 0 && r == NULL ==> Now() == old(Now()) && words == old(words)
      // for the others: their blocks stay where they are, as long as they are, with every word
      ensures ptr != NULL && newsize != 0 && r != NULL ==>
        forall off: nat, ext: nat :: IsLive(old(blocks), off, ext) && off != old(blocks)[i].off ==> IsLive(blocks, off, ext)
      ensures ptr != NULL && newsize != 0 && r != NULL ==>
        forall off: nat, ext: nat, a: nat ::
          IsLive(old(blocks), off, ext) && off != old(blocks)[i].off && off + HEADER <= a < off + ext && a in old(words) ==>
            a in words && words[a] == old(words)[a]
      // and a block that moved is gone
      ensures ptr != NULL && newsize != 0 && r != NULL && r != ptr ==>
        forall ext: nat :: !IsLive(blocks, old(blocks)[i].off, ext)
    {
      hide Valid, Resized, IsLive, WordMoved, KeepsOwned, GiveBack, Take, Chained, Threaded, Agree, Backed,
           FirstBig, NoneBig;
      if ptr != NULL { BlockSays(ptr, i); }
      j, k, o, e := 0, 0, 0, 0;
      NeedFacts(newsize);
      if newsize == 0 {
        Free(ptr, i);
        return NULL, j, k, o, e;
      }
      var n := Align4(newsize);
      if n < MIN_SIZE { n := MIN_SIZE; }
      AlignTwice(newsize);
      if ptr == NULL {
        CountSays();
        r, j, k := Alloc(n);
        return;
      }
      ghost var p, m0 := Now(), words;
      r, j, k := Resize(ptr, n, i);
      if r != NULL {
        o, e := ResizedSeen(p, Now(), m0, words, End(), i, n, ptr, r, j, k);
        DataInPlace(m0, words, p.blocks, HEADER, i, r, n);
      }
    }

    lemma CountSays()
      requires Valid()
      ensures available == FreeRoom(blocks, HEADER)
    {
    }

    lemma BlockSays(ptr: int, i: nat)
      requires Valid() && Holds(i, ptr)
      ensures 0 <= End() && Agree(Now(), End()) && Backed(words, End() + HEADER)
      ensures i + 1 < |blocks| && blocks[i].used && ptr == blocks[i].off + HEADER && blocks[i].off % 4 == 0
    {
      assert Aligned(blocks[i]);
    }

    /** The rest of rt_memheap_realloc, for a block and a size that is not 0. */
    method Resize(ptr: int, n: nat, ghost i: nat) returns (r: int, ghost j: nat, ghost k: nat)
      requires Valid() && Holds(i, ptr) && n % 4 == 0 && n == Need(n) < TWO32 && NoWrap(blocks, i, n)
      modifies this
      ensures Valid() && poolSize == old(poolSize) && old(history) <= history
      ensures Resized(old(Now()), Now(), old(words), words, i, n, ptr, r, j, k)
      ensures r == NULL ==> Now() == old(Now()) && words == old(words)
      ensures r != NULL ==> r >= 0
    {
      j, k := 0, 0;
      var oldsize := ItemSize(ptr - HEADER, i);
      if n > oldsize {
        r, j, k := Enlarge(ptr, oldsize, n, i);
        return;
      }
      if n + HEADER + MIN_SIZE >= oldsize { return ptr, j, k; }
      CutBack(ptr - HEADER, n, i);
      return ptr, j, k;
    }

    /** The block after the one at `ptr`: whether it is free, and then its size. */
    method LookBehind(ptr: int, ghost i: nat) returns (nx: int, free: bool, size: nat)
      requires Linked() && i + 1 < |blocks| && blocks[i].off == ptr
      ensures nx == blocks[i + 1].off && free == (i + 2 < |blocks| && !blocks[i + 1].used)
      ensures free ==> size == Room(blocks, i + 1, HEADER)
    {
      assert ItemAt(used, next, prev, blocks, i) && ItemAt(used, next, prev, blocks, i + 1);
      nx, size := next[ptr], 0;
      free := !used[nx];
      if free { size := ItemSize(nx, i + 1); }
    }

    /** Grow in place if the next block is free and large enough, else move. */
    method Enlarge(ptr: int, oldsize: int, n: nat, ghost i: nat) returns (r: int, ghost j: nat, ghost k: nat)
      requires Valid() && Holds(i, ptr) && oldsize == Room(blocks, i, HEADER) < n && n % 4 == 0 && n < TWO32
      requires n == Need(n) && NoWrap(blocks, i, n)
      modifies this
      ensures Valid() && poolSize == old(poolSize) && old(history) <= history
      ensures Resized(old(Now()), Now(), old(words), words, i, n, ptr, r, j, k)
    {
      j, k := 0, 0;
      assert Apart(blocks, i, HEADER);
      hide Tiled, Chained, Threaded, Backed, Peak, KeepsOwned, GrowInto, Moved, Agree, Need, GrowTest, CutDown;
      var nx, free, nextsize := LookBehind(ptr - HEADER, i);
      if free { GrowTestMeans(oldsize, nextsize, n); }
      if free && GrowTest(oldsize, nextsize, n) {
        Extend(ptr - HEADER, nx, n - oldsize, n, i);
        return ptr, j, k;
      }
      r, j, k := Move(ptr, oldsize, n, i);
    }

    /** Allocate, copy, free. */
    method Move(ptr: int, oldsize: int, n: nat, ghost i: nat) returns (r: int, ghost j: nat, ghost k: nat)
      requires Valid() && Holds(i, ptr) && 0 <= oldsize == Room(blocks, i, HEADER) < n
      requires n == Need(n) < TWO32 && n % 4 == 0
      modifies this
      ensures Valid() && poolSize == old(poolSize) && old(history) <= history
      ensures if Cannot(old(Now()), n) then r == NULL && unchanged(this)
              else Moved(old(Now()), Now(), old(words), words, i, j, k, n, r)
      // every word is there, and the old block is gone
      ensures r != NULL ==>
        && (forall a: nat, b: nat :: (a % 4 == 0 && a in old(words) && b in words && ptr <= a < old(blocks)[i + 1].off
                                      && a - ptr == b - r) ==> words[b] == old(words)[a])
        && forall ext: nat :: !IsLive(blocks, old(blocks)[i].off, ext)
    {
      hide Chained, Threaded, Peak, Moved, GiveBack, KeepsOwned, IsCopy, Coalesced, IsLive, Seen;
      BlockSays(ptr, i);
      ghost var p, w := Now(), words;
      r, j, k := Alloc(n);
      if r == NULL { return; }
      ghost var u := words;
      NotBig(p.blocks, End(), k, n);
      MovedIndex(p.blocks, HEADER, End(), i, k, n);
      CopyThenFree(r, ptr, if oldsize < n then oldsize else n, ShiftedIndex(p.blocks, i, k, n, HEADER));
      MoveDone(p, Now(), End(), w, u, words, i, j, k, n, ptr, r);
      MovedInPlace(p, Now(), w, words, End(), i, j, k, n, r);
    }

    /** The rt_memcpy into the new block, then rt_memheap_free of the old one. */
    method CopyThenFree(r: nat, ptr: nat, count: nat, ghost i: nat)
      requires Valid() && Holds(i, ptr)
      modifies this
      ensures Valid() && poolSize == old(poolSize) && old(history) <= history && Now() == GiveBack(old(Now()), i)
      ensures IsCopy(old(words), words, r, ptr, count)
    {
      var copied := MemCopy(words, r, ptr, count);
      words := copied;
      Free(ptr, i);
    }
  }

  // ----- what that means for the clients -----

  lemma TakeForClients(p: Pool, q: Pool, m0: Memory, m1: Memory, end: nat, j: nat, i: nat, n: nat)
    requires Agree(p, end) && n % 4 == 0 && FirstBig(p, j, n) && FreeAt(p.blocks, i, p.free[j])
    requires q == Take(p, i, n) && KeepsOwned(m0, m1, p.blocks, HEADER)
    ensures i + 1 < |q.blocks| && q.blocks[i] == Block(p.blocks[i].off, true)
    ensures n <= q.blocks[i + 1].off - q.blocks[i].off - HEADER < n + 36
    ensures forall m, x :: 0 <= m < j && 0 <= x < |p.blocks| - 1 && p.blocks[x].off == p.free[m] ==>
      p.blocks[x + 1].off - p.blocks[x].off - HEADER < n
    ensures forall off: nat, ext: nat :: IsLive(q.blocks, off, ext) <==>
      IsLive(p.blocks, off, ext) || (off == p.blocks[i].off && ext == q.blocks[i + 1].off - q.blocks[i].off)
    ensures forall off: nat, ext: nat, a: nat ::
      IsLive(p.blocks, off, ext) && off + HEADER <= a < off + ext && a in m0 ==> a in m1 && m1[a] == m0[a]
  {
    NotBig(p.blocks, end, i, n);
    AllocKeeps(p.blocks, HEADER, end, i, n);
    forall m, x | 0 <= m < j && 0 <= x < |p.blocks| - 1 && p.blocks[x].off == p.free[m]
      ensures p.blocks[x + 1].off - p.blocks[x].off - HEADER < n
    {
      NotBig(p.blocks, end, x, n);
    }
    forall off: nat, ext: nat ensures IsLive(q.blocks, off, ext) <==>
      IsLive(p.blocks, off, ext) || (off == p.blocks[i].off && ext == q.blocks[i + 1].off - q.blocks[i].off)
    {
      AllocLive(p.blocks, HEADER, end, i, n, off, ext);
    }
    KeptForClients(m0, m1, p.blocks, HEADER);
  }

  lemma NoneBigSays(p: Pool, end: nat, n: nat)
    requires Agree(p, end) && NoneBig(p, n)
    ensures forall x :: 0 <= x < |p.blocks| - 1 && !p.blocks[x].used ==>
      p.blocks[x + 1].off - p.blocks[x].off - HEADER < n
  {
    forall x | 0 <= x < |p.blocks| - 1 && !p.blocks[x].used ensures p.blocks[x + 1].off - p.blocks[x].off - HEADER < n {
      FreeIsListed(p, x, p.blocks[x].off);
      NotBig(p.blocks, end, x, n);
    }
  }

  lemma GiveBackForClients(p: Pool, end: nat, i: nat)
    requires Agree(p, end) && i + 1 < |p.blocks| && p.blocks[i].used
    ensures forall off: nat, ext: nat ::
      IsLive(GiveBack(p, i).blocks, off, ext) <==> IsLive(p.blocks, off, ext) && off != p.blocks[i].off
  {
    forall off: nat, ext: nat
      ensures IsLive(GiveBack(p, i).blocks, off, ext) <==> IsLive(p.blocks, off, ext) && off != p.blocks[i].off
    {
      ReleaseLive(p.blocks, HEADER, end, i, off, ext);
    }
  }

  /** What the caller of rt_memheap_realloc and the other clients see, if a pointer came back. */
  ghost predicate Seen(v: seq<Block>, w: seq<Block>, m0: Memory, m1: Memory, i: nat, n: nat, r: nat, o: nat, e: nat)
    requires i + 1 < |v|
  {
    && r == o + HEADER && IsLive(w, o, e) && HEADER + n <= e
    && (forall a: nat :: a % 4 == 0 && a < Room(v, i, HEADER) && a < n ==> WordMoved(m0, m1, v[i].off + HEADER, r, a))
    && (forall off: nat, ext: nat :: IsLive(v, off, ext) && off != v[i].off ==> IsLive(w, off, ext))
    && (forall off: nat, ext: nat, a: nat ::
          IsLive(v, off, ext) && off != v[i].off && off + HEADER <= a < off + ext && a in m0 ==> a in m1 && m1[a] == m0[a])
    && (r != v[i].off + HEADER ==> forall ext: nat :: !IsLive(w, v[i].off, ext))
  }

  lemma SeenInPlace(v: seq<Block>, w: seq<Block>, m0: Memory, m1: Memory, i: nat, n: nat, r: nat, o: nat, e: nat)
    requires i + 1 < |v| && v[i].off % 4 == 0 && Room(v, i, HEADER) < n && Seen(v, w, m0, m1, i, n, r, o, e)
    ensures var s := v[i].off + HEADER; forall a: nat, b: nat ::
      (a % 4 == 0 && a in m0 && b in m1 && s <= a < v[i + 1].off && a - s == b - r) ==> m1[b] == m0[a]
    ensures r != v[i].off + HEADER ==> forall ext: nat :: !IsLive(w, v[i].off, ext)
  {
    DataInPlace(m0, m1, v, HEADER, i, r, n);
  }

  lemma MovedInPlace(p: Pool, q: Pool, m0: Memory, m1: Memory, end: nat, i: nat, j: nat, k: nat, n: nat, r: nat)
    requires Agree(p, end) && i + 1 < |p.blocks| && p.blocks[i].used && n % 4 == 0 && Room(p.blocks, i, HEADER) < n
    requires Moved(p, q, m0, m1, i, j, k, n, r)
    ensures var s := p.blocks[i].off + HEADER; forall a: nat, b: nat ::
      (a % 4 == 0 && a in m0 && b in m1 && s <= a < p.blocks[i + 1].off && a - s == b - r) ==> m1[b] == m0[a]
    ensures forall ext: nat :: !IsLive(q.blocks, p.blocks[i].off, ext)
  {
    assert Aligned(p.blocks[i]);
    hide Seen, Moved, IsLive;
    var o, e := MovedSeen(p, q, m0, m1, end, i, j, k, n, r);
    SeenInPlace(p.blocks, q.blocks, m0, m1, i, n, r, o, e);
  }

  lemma KeptSeen(v: seq<Block>, m: Memory, end: nat, i: nat, n: nat) returns (o: nat, e: nat)
    requires Tiled(v, HEADER, end) && Backed(m, end + HEADER) && i + 1 < |v| && v[i].used && n <= Room(v, i, HEADER)
    ensures Seen(v, v, m, m, i, n, v[i].off + HEADER, o, e)
  {
    o, e := v[i].off, HEADER + Room(v, i, HEADER);
    assert LiveAt(v, i, o, e);
    forall a: nat | a % 4 == 0 && a < Room(v, i, HEADER)
      ensures WordMoved(m, m, v[i].off + HEADER, v[i].off + HEADER, a)
    {
      PayloadWord(m, v, HEADER, end, i, a);
    }
  }

  lemma CutSeen(v: seq<Block>, m0: Memory, m1: Memory, end: nat, i: nat, n: nat) returns (o: nat, e: nat)
    requires WellFormed(v, HEADER, end) && Backed(m0, end + HEADER) && i + 1 < |v| && v[i].used
    requires n % 4 == 0 && 0 < n && n + HEADER <= Room(v, i, HEADER) && KeepsOwned(m0, m1, Shrink(v, i, n, HEADER), HEADER)
    ensures Seen(v, Shrink(v, i, n, HEADER), m0, m1, i, n, v[i].off + HEADER, o, e)
  {
    o, e := v[i].off, HEADER + n;
    ShrinkForClients(v, HEADER, m0, m1, end, i, n);
    ShrinkOthers(v, HEADER, m0, m1, end, i, n);
  }

  lemma GrownSeen(v: seq<Block>, m0: Memory, m1: Memory, end: nat, i: nat, n: nat) returns (o: nat, e: nat)
    requires WellFormed(v, HEADER, end) && Backed(m0, end + HEADER) && KeepsOwned(m0, m1, v, HEADER)
    requires i + 2 < |v| && v[i].used && !v[i + 1].used
    requires n % 4 == 0 && v[i].off + HEADER + n + HEADER <= v[i + 2].off
    ensures Seen(v, Grow(v, i, n, HEADER), m0, m1, i, n, v[i].off + HEADER, o, e)
  {
    o, e := v[i].off, HEADER + n;
    forall off: nat, ext: nat
      ensures IsLive(v, off, ext) && off != v[i].off ==> IsLive(Grow(v, i, n, HEADER), off, ext)
      ensures off == o && ext == e ==> IsLive(Grow(v, i, n, HEADER), off, ext)
    {
      GrowLive(v, HEADER, end, i, n, off, ext);
    }
    forall a: nat | a % 4 == 0 && a < Room(v, i, HEADER)
      ensures WordMoved(m0, m1, v[i].off + HEADER, v[i].off + HEADER, a)
    {
      PayloadWord(m0, v, HEADER, end, i, a);
      assert OwnedBy(v, i, v[i].off + HEADER + a, HEADER);
    }
    KeptForClients(m0, m1, v, HEADER);
  }

  lemma MovedSeen(p: Pool, q: Pool, m0: Memory, m1: Memory, end: nat, i: nat, j: nat, k: nat, n: nat, r: nat)
    returns (o: nat, e: nat)
    requires Agree(p, end) && i + 1 < |p.blocks| && p.blocks[i].used && n % 4 == 0 && Moved(p, q, m0, m1, i, j, k, n, r)
    ensures Seen(p.blocks, q.blocks, m0, m1, i, n, r, o, e) && r != p.blocks[i].off + HEADER
  {
    var v, u, i1 := p.blocks, Alloc(p.blocks, k, n, HEADER), ShiftedIndex(p.blocks, i, k, n, HEADER);
    NotBig(v, end, k, n);
    MovedIndex(v, HEADER, end, i, k, n);
    AllocKeeps(v, HEADER, end, k, n);
    if v[k].off == v[i].off { IndexIsUnique(v, HEADER, end, i, k); }
    o, e := v[k].off, HEADER + Room(u, k, HEADER);
    forall off: nat, ext: nat ensures IsLive(q.blocks, off, ext) <==>
      off != v[i].off && (IsLive(v, off, ext) || (off == o && ext == e))
    {
      AllocLive(v, HEADER, end, k, n, off, ext);
      ReleaseLive(u, HEADER, end, i1, off, ext);
    }
    OthersKeptForClients(m0, m1, v, HEADER, end, i);
  }

  lemma ResizedSeen(p: Pool, q: Pool, m0: Memory, m1: Memory, end: nat, i: nat, n: nat, ptr: int, r: nat,
                    j: nat, k: nat) returns (o: nat, e: nat)
    requires Agree(p, end) && Backed(m0, end + HEADER) && i + 1 < |p.blocks| && p.blocks[i].used
    requires ptr == p.blocks[i].off + HEADER && n % 4 == 0 && 0 < n && Resized(p, q, m0, m1, i, n, ptr, r, j, k)
    ensures Seen(p.blocks, q.blocks, m0, m1, i, n, r, o, e)
  {
    hide Seen, Moved, Shrink, Grow, KeepsOwned, Backed;
    var v, room := p.blocks, Room(p.blocks, i, HEADER);
    if n <= room {
      if n + HEADER + MIN_SIZE >= room {
        o, e := KeptSeen(v, m0, end, i, n);
      } else {
        o, e := CutSeen(v, m0, m1, end, i, n);
      }
    } else if i + 2 < |v| && !v[i + 1].used && n + MIN_SIZE < room + Room(v, i + 1, HEADER) {
      o, e := GrownSeen(v, m0, m1, end, i, n);
    } else {
      o, e := MovedSeen(p, q, m0, m1, end, i, j, k, n, r);
    }
  }

  lemma FreshPool(tail: nat)
    requires tail >= HEADER && tail % 4 == 0
    ensures var v := [Block(0, false), Block(tail, true)];
      Agree(Pool(v, [0]), tail) && FreeRoom(v, HEADER) == tail - HEADER
  {
    var v := [Block(0, false), Block(tail, true)];
    assert Apart(v, 0, HEADER) && Guarded(v, 0) && Aligned(v[0]) && Aligned(v[1]);
    forall off: nat ensures ListedAt(v, [0], off) {
      if Block(off, false) in v { var k :| 0 <= k < |v| && v[k] == Block(off, false); }
      assert v[0] == Block(0, false);
    }
    assert v[1..] == [Block(tail, true)];
    assert Total(v, false, HEADER) == Share(v, 0, false, HEADER) + Total(v[1..], false, HEADER);
  }

  lemma MarkCut(v: seq<Block>, i: nat, size: nat)
    requires i + 1 < |v|
    ensures SetUsed(Cut(v, i, size, HEADER), i, true) == Cut(SetUsed(v, i, true), i, size, HEADER)
  {
    assert v[i + 1..] == SetUsed(v, i, true)[i + 1..];
  }

  lemma FreeIsListed(p: Pool, i: nat, off: nat)
    requires Listed(p.blocks, p.free) && i < |p.blocks| && p.blocks[i] == Block(off, false)
    ensures off in p.free
  {
    assert ListedAt(p.blocks, p.free, off);
  }

  lemma NewIsUnlisted(p: Pool, end: nat, i: nat, n: nat)
    requires Agree(p, end) && i + 1 < |p.blocks| && p.blocks[i].off < n < p.blocks[i + 1].off
    ensures n !in p.free
  {
    InsideIsNew(p.blocks, end, i, n);
    assert ListedAt(p.blocks, p.free, n);
  }

  /** The payload that giving back block `i` frees. */
  ghost function Given(v: seq<Block>, i: nat): int
    requires i + 1 < |v|
  {
    Room(v, i, HEADER) + (if i > 0 && !v[i - 1].used then HEADER else 0)
                       + (if i + 2 < |v| && !v[i + 1].used then HEADER else 0)
  }

  lemma GiveBackFacts(p: Pool, end: nat, i: nat)
    requires Agree(p, end) && i + 1 < |p.blocks| && p.blocks[i].used
    ensures var q := GiveBack(p, i);
      && Agree(q, end) && 0 <= FreeRoom(q.blocks, HEADER) <= end && Room(p.blocks, i, HEADER) >= 0
      && FreeRoom(q.blocks, HEADER) == FreeRoom(p.blocks, HEADER) + Given(p.blocks, i)
  {
    GiveBackAgrees(p, end, i);
    ReleaseRoom(p.blocks, i, HEADER);
    FreeBelowEnd(GiveBack(p, i).blocks, end);
    assert Apart(p.blocks, i, HEADER);
  }

  /** The merges of a free block commute. */
  lemma MergeOrder(v: seq<Block>, i: nat)
    requires i + 1 < |v|
    ensures var u := SetUsed(v, i, false); var l := MergePrev(u, i);
      Release(v, i) == if i > 0 && !v[i - 1].used then MergeNext(l, i - 1) else MergeNext(l, i)
  {
    var u := SetUsed(v, i, false);
    if i > 0 && !v[i - 1].used && i + 2 < |v| && !v[i + 1].used {
      var a, b := Swallow(u, i), Swallow(u, i - 1);
      assert a[..i] == u[..i] == b[..i] && a[i + 1..] == u[i + 2..] == b[i + 1..];
    }
  }

  lemma OwnIsUnlisted(p: Pool, end: nat, i: nat)
    requires Agree(p, end) && i + 1 < |p.blocks| && p.blocks[i].used
    ensures p.blocks[i].off !in p.free
  {
    var v, o := p.blocks, p.blocks[i].off;
    SetUsedFree(v, end, i, true, o);
    assert SetUsed(v, i, true) == v;
    assert ListedAt(v, p.free, o);
  }

  lemma OwnStaysUnlisted(p: Pool, end: nat, i: nat)
    requires Agree(p, end) && i + 1 < |p.blocks| && p.blocks[i].used
    ensures p.blocks[i].off !in Unlisted(p, i)
  {
    OwnIsUnlisted(p, end, i);
    WithoutMembers(p.free, p.blocks[i + 1].off);
  }

  // ----- what rt_memheap_realloc does -----

  /** Owned of the next block, if that is free. */
  ghost function NextFree(v: seq<Block>, i: nat): int
    requires i + 1 < |v|
  {
    if i + 2 < |v| && !v[i + 1].used then Room(v, i + 1, HEADER) else 0
  }

  /** Free payload won by cutting block `i` down to `n` bytes. */
  ghost function CutGain(v: seq<Block>, i: nat, n: nat): int
    requires i + 1 < |v|
  {
    Room(v, i, HEADER) - HEADER - n + (if i + 2 < |v| && !v[i + 1].used then HEADER else 0)
  }

  /** The row and the list between the cut and the merge. */
  ghost function Halfway(p: Pool, i: nat, n: nat): Pool
    requires i + 1 < |p.blocks|
  {
    Pool(Cut(p.blocks, i, n, HEADER), p.free)
  }

  ghost predicate CutReady(p: Pool, c: Pool, i: nat, n: nat)
    requires i + 1 < |p.blocks|
  {
    && i + 2 < |c.blocks| && c.blocks[i + 1].off == p.blocks[i].off + HEADER + n
    && c.blocks[i + 1].off !in Unlisted(c, i + 1)
    && (i + 3 < |c.blocks| && !c.blocks[i + 2].used ==> c.blocks[i + 2].off in c.free)
    && NextFree(c.blocks, i + 1) == NextFree(p.blocks, i)
    && CutDown(p, i, n) == Pool(MergeNext(c.blocks, i + 1), [c.blocks[i + 1].off] + Unlisted(c, i + 1))
  }

  lemma CutUnlisted(p: Pool, end: nat, i: nat, n: nat)
    requires Agree(p, end) && i + 1 < |p.blocks| && p.blocks[i].used && n + HEADER <= Room(p.blocks, i, HEADER)
    ensures CutReady(p, Halfway(p, i, n), i, n)
  {
    NewIsUnlisted(p, end, i, p.blocks[i].off + HEADER + n);
    WithoutMembers(p.free, p.blocks[i + 1].off);
    CutNeighbours(p.blocks, i, n);
    if i + 2 < |p.blocks| && !p.blocks[i + 1].used { FreeIsListed(p, i + 1, p.blocks[i + 1].off); }
    var c := Halfway(p, i, n);
    assert i + 2 < |p.blocks| ==> c.blocks[i + 3] == p.blocks[i + 2];
    assert Unlisted(c, i + 1) == Unlisted(p, i);
  }

  /** What the cut leaves. */
  lemma CutRoom(p: Pool, end: nat, i: nat, n: nat, m0: Memory, m1: Memory)
    requires Agree(p, end) && i + 1 < |p.blocks| && p.blocks[i].used
    requires n % 4 == 0 && n + HEADER <= Room(p.blocks, i, HEADER)
    requires OnlyHeader(m0, m1, p.blocks[i].off + HEADER + n)
    ensures var w := CutDown(p, i, n).blocks;
      && i + 2 < |w| && w[i + 1] == Block(p.blocks[i].off + HEADER + n, false)
      && Room(w, i + 1, HEADER) - NextFree(p.blocks, i) == CutGain(p.blocks, i, n)
      && KeepsOwned(m0, m1, w, HEADER)
  {
    CutNeighbours(p.blocks, i, n);
    CutDownAgrees(p, end, i, n);
    var w := CutDown(p, i, n).blocks;
    assert Apart(w, i + 1, HEADER);
    HeaderInFree(m0, m1, w, end, i + 1, p.blocks[i].off + HEADER + n);
  }

  lemma CutDownFacts(p: Pool, end: nat, i: nat, n: nat)
    requires Agree(p, end) && i + 1 < |p.blocks| && p.blocks[i].used
    requires n % 4 == 0 && n + HEADER <= Room(p.blocks, i, HEADER)
    ensures var q := CutDown(p, i, n);
      && Agree(q, end) && 0 <= FreeRoom(q.blocks, HEADER) <= end && NextFree(p.blocks, i) <= FreeRoom(p.blocks, HEADER)
      && FreeRoom(q.blocks, HEADER) == FreeRoom(p.blocks, HEADER) + CutGain(p.blocks, i, n)
  {
    CutDownAgrees(p, end, i, n);
    ShrinkRoom(p.blocks, i, n, HEADER);
    FreeBelowEnd(p.blocks, end);
    FreeBelowEnd(CutDown(p, i, n).blocks, end);
    if i + 2 < |p.blocks| && !p.blocks[i + 1].used { RoomInTotal(p.blocks, end, i + 1); }
  }

  /** The addition in the growth test does not wrap, or is not made: see GrowTestExact. */
  ghost predicate NoWrap(v: seq<Block>, i: nat, n: nat)
    requires i + 1 < |v|
  {
    n + MIN_SIZE < TWO32 || v[i + 1].used || n <= Room(v, i, HEADER)
  }

  ghost predicate Cannot(p: Pool, n: nat)
  {
    n >= FreeRoom(p.blocks, HEADER) || NoneBig(p, n)
  }

  ghost predicate Taken(p: Pool, q: Pool, j: nat, k: nat, n: nat, r: int)
  {
    && FirstBig(p, j, n) && FreeAt(p.blocks, k, p.free[j]) && r == p.free[j] + HEADER
    && q == Take(p, k, n)
  }

  /** Block `i`'s data is now in block `k`, block `i` is free, and no other client's word changed. */
  ghost predicate Moved(p: Pool, q: Pool, m0: Memory, m1: Memory, i: nat, j: nat, k: nat, n: nat,
                        r: int)
    requires i + 1 < |p.blocks|
  {
    && FirstBig(p, j, n) && FreeAt(p.blocks, k, p.free[j]) && r == p.free[j] + HEADER
    && ShiftedIndex(p.blocks, i, k, n, HEADER) + 1 < |Take(p, k, n).blocks|
    && q == GiveBack(Take(p, k, n), ShiftedIndex(p.blocks, i, k, n, HEADER))
    && OthersKept(m0, m1, p.blocks, i, HEADER)
    && (forall o: nat :: o < Room(p.blocks, i, HEADER) && o % 4 == 0 ==>
          WordMoved(m0, m1, p.blocks[i].off + HEADER, p.blocks[k].off + HEADER, o))
  }

  /** What rt_memheap_realloc did to block `i`, asked for `n` bytes (rounded up, not 0). */
  ghost predicate Resized(p: Pool, q: Pool, m0: Memory, m1: Memory, i: nat, n: nat, ptr: int, r: int,
                          j: nat, k: nat)
    requires i + 1 < |p.blocks|
  {
    var room := Room(p.blocks, i, HEADER);
    if n <= room then
      if n + HEADER + MIN_SIZE >= room then r == ptr && q == p && m1 == m0
      else r == ptr && q == CutDown(p, i, n) && KeepsOwned(m0, m1, q.blocks, HEADER)
    else if i + 2 < |p.blocks| && !p.blocks[i + 1].used && n + MIN_SIZE < room + Room(p.blocks, i + 1, HEADER) then
      r == ptr && q == GrowInto(p, i, n) && KeepsOwned(m0, m1, p.blocks, HEADER)
    else if Cannot(p, n) then r == NULL && q == p && m1 == m0
    else Moved(p, q, m0, m1, i, j, k, n, r)
  }

  lemma MovedData(p: Pool, end: nat, m0: Memory, m1: Memory, m2: Memory, i: nat, j: nat,
                  k: nat, n: nat, ptr: int)
    requires Agree(p, end) && Backed(m0, end + HEADER)
    requires i + 1 < |p.blocks| && p.blocks[i].used && ptr == p.blocks[i].off + HEADER
    requires 0 <= Room(p.blocks, i, HEADER) < n
    requires FirstBig(p, j, n) && FreeAt(p.blocks, k, p.free[j]) && n % 4 == 0
    requires KeepsOwned(m0, m1, p.blocks, HEADER)
    requires IsCopy(m1, m2, p.free[j] + HEADER, ptr, Room(p.blocks, i, HEADER))
    ensures OthersKept(m0, m2, p.blocks, i, HEADER)
    ensures forall o: nat :: o < Room(p.blocks, i, HEADER) && o % 4 == 0 ==>
      WordMoved(m0, m2, p.blocks[i].off + HEADER, p.blocks[k].off + HEADER, o)
  {
    var v := p.blocks;
    var src, dst, len := v[i].off + HEADER, v[k].off + HEADER, Room(v, i, HEADER);
    assert Big(v, p.free[j], n);
    NotBig(v, end, k, n);
    forall a: nat | a in m0 && a in m2 && Owned(v, a, HEADER) && !OwnedBy(v, i, a, HEADER) ensures m2[a] == m0[a] {
      NotInFreeBlock(v, HEADER, end, k, a);
      assert SameAt(m1, m2, a);
      assert m1[a] == m0[a];
    }
    LastOffset(v, HEADER, end, i + 1);
    LastOffset(v, HEADER, end, k + 1);
    assert Aligned(v[i]) && Aligned(v[k]);
    forall o: nat | o < len && o % 4 == 0 ensures WordMoved(m0, m2, src, dst, o) {
      assert OwnedBy(v, i, src + o, HEADER);
      Mod4Sum(v[i].off, HEADER, o);
      Mod4Sum(v[k].off, HEADER, o);
      assert CopiedAt(m1, m2, dst, src, o);
      assert m1[src + o] == m0[src + o];
    }
  }

  lemma MoveDone(p: Pool, q: Pool, end: nat, m0: Memory, m1: Memory, m2: Memory,
                 i: nat, j: nat, k: nat, n: nat, ptr: int, r: int)
    requires Agree(p, end) && Backed(m0, end + HEADER)
    requires i + 1 < |p.blocks| && p.blocks[i].used && ptr == p.blocks[i].off + HEADER
    requires 0 <= Room(p.blocks, i, HEADER) < n && n % 4 == 0
    requires FirstBig(p, j, n) && FreeAt(p.blocks, k, p.free[j]) && r == p.free[j] + HEADER
    requires KeepsOwned(m0, m1, p.blocks, HEADER)
    requires IsCopy(m1, m2, r, ptr, Room(p.blocks, i, HEADER))
    requires ShiftedIndex(p.blocks, i, k, n, HEADER) + 1 < |Take(p, k, n).blocks|
    requires q == GiveBack(Take(p, k, n), ShiftedIndex(p.blocks, i, k, n, HEADER))
    ensures Moved(p, q, m0, m2, i, j, k, n, r)
  {
    MovedData(p, end, m0, m1, m2, i, j, k, n, ptr);
  }
}
