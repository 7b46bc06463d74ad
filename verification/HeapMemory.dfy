/** How mem.c keeps a row of blocks in raw memory.

    Memory is a map from the byte offset of each aligned 32-bit word (from heap_ptr) to its value.
    A header is three words: magic (low half) and used flag (high half), next, prev.  Nothing but the
    offsets separates headers from payload, so every claim that one does not overwrite the other is
    proved from the layout. */
module HeapMemory {
  import opened Layout
  import opened Words

  const HEADER := 12        // SIZEOF_STRUCT_MEM
  const MAGIC := 0x1ea0     // HEAP_MAGIC
  const TWO16 := 0x1_0000

  // ----- the header word that holds two 16-bit fields -----

  function WithMagic(word: nat): nat { word / TWO16 * TWO16 + MAGIC }

  function WithUsed(word: nat, used: bool): nat { word % TWO16 + (if used then TWO16 else 0) }

  function UsedField(word: nat): bool { word / TWO16 != 0 }

  function Tag(used: bool): nat { MAGIC + (if used then TWO16 else 0) }

  lemma TagFields(word: nat, used: bool)
    ensures WithUsed(WithMagic(word), used) == Tag(used)
    ensures WithUsed(Tag(!used), used) == Tag(used)
    ensures WithMagic(Tag(used)) == Tag(used)
    ensures UsedField(Tag(used)) == used
  {
    assert (word / TWO16 * TWO16 + MAGIC) % TWO16 == MAGIC;
  }

  // ----- headers in memory -----

  ghost predicate HasHeader(mem: Memory, o: nat)
  {
    o in mem && o + 4 in mem && o + 8 in mem
  }

  /** Block `i`'s header: its flag, the link forward, and the link back.  The sentinel's `prev` is
      deliberately unconstrained: rt_malloc skips it. */
  ghost predicate Header(mem: Memory, v: seq<Block>, i: nat)
    requires i < |v|
  {
    var o := v[i].off;
    && HasHeader(mem, o)
    && mem[o] == Tag(v[i].used)
    && mem[o + 4] == (if i + 1 < |v| then v[i + 1].off else o)
    && (i + 1 < |v| ==> mem[o + 8] == if i == 0 then 0 else v[i - 1].off)
  }

  ghost predicate Represents(mem: Memory, v: seq<Block>)
  {
    forall i: nat :: i < |v| ==> Header(mem, v, i)
  }

  /** The words of `ram` below `size`. */
  method Snapshot(ram: nat -> nat, size: nat) returns (m: Memory)
    ensures Backed(m, size)
  {
    m := map a: nat | a < size && a % 4 == 0 :: ram(a);
  }

  lemma HeaderBacked(mem: Memory, o: nat, size: nat)
    requires Backed(mem, size) && o % 4 == 0 && o + HEADER <= size
    ensures HasHeader(mem, o)
  {
  }

  /** `m1` is `m0` with at most the words at `where` overwritten. */
  ghost predicate OnlyChanges(m0: Memory, m1: Memory, where: set<nat>)
  {
    m1.Keys == m0.Keys && forall a: nat :: a in m0 && a !in where ==> m1[a] == m0[a]
  }

  /** Build a header at `o`, whatever the memory held there: magic, used, next, prev. */
  method PutHeader(m: Memory, o: nat, used: bool, next: nat, prev: nat) returns (r: Memory)
    requires HasHeader(m, o)
    ensures OnlyChanges(m, r, {o, o + 4, o + 8})
    ensures HasHeader(r, o) && r[o] == Tag(used) && r[o + 4] == next && r[o + 8] == prev
  {
    TagFields(m[o], used);
    r := m[o := WithMagic(m[o])];
    r := r[o := WithUsed(r[o], used)];
    r := r[o + 4 := next];
    r := r[o + 8 := prev];
  }

  // ----- the elementary edits, in memory -----

  lemma Separate(v: seq<Block>, end: nat, i: nat, j: nat)
    requires Tiled(v, HEADER, end) && i < |v| && j < |v|
    ensures i == j || v[i].off + HEADER <= v[j].off || v[j].off + HEADER <= v[i].off
  {
    if i < j { InOrder(v, HEADER, i, j); }
    if j < i { InOrder(v, HEADER, j, i); }
  }

  lemma SetUsedRep(m0: Memory, m1: Memory, v: seq<Block>, end: nat, i: nat, used: bool)
    requires Tiled(v, HEADER, end) && Represents(m0, v) && i + 1 < |v|
    requires OnlyChanges(m0, m1, {v[i].off}) && v[i].off in m1 && m1[v[i].off] == Tag(used)
    ensures Represents(m1, SetUsed(v, i, used))
  {
    var w := SetUsed(v, i, used);
    forall k: nat | k < |w| ensures Header(m1, w, k) {
      assert Header(m0, v, k);
      Separate(v, end, i, k);
    }
  }

  lemma SwallowRep(m0: Memory, m1: Memory, v: seq<Block>, end: nat, i: nat)
    requires Tiled(v, HEADER, end) && Represents(m0, v) && i + 2 < |v|
    requires OnlyChanges(m0, m1, {v[i].off + 4, v[i + 2].off + 8})
    requires v[i].off + 4 in m1 && m1[v[i].off + 4] == v[i + 2].off
    requires v[i + 2].off + 8 in m1 && m1[v[i + 2].off + 8] == v[i].off
    ensures Represents(m1, Swallow(v, i)) && KeepsOwned(m0, m1, v, HEADER)
  {
    var w := Swallow(v, i);
    forall k: nat | k < |w| ensures Header(m1, w, k) {
      var k' := if k <= i then k else k + 1;
      assert Header(m0, v, k');
      Separate(v, end, i, k');
      Separate(v, end, i + 2, k');
    }
    forall a: nat | a in m0 && Owned(v, a, HEADER) ensures m1[a] == m0[a] {
      OwnedClearOfHeader(v, HEADER, end, a, i);
      OwnedClearOfHeader(v, HEADER, end, a, i + 2);
    }
  }

  /** The words written when a block is cut at `n`: the new header and its neighbours' links to it. */
  ghost function CutWords(o: nat, n: nat, after: nat): set<nat>
  {
    {o + 4, n, n + 4, n + 8, after + 8}
  }

  /** `m1` is `m0` with a free header at `n` linked in between `o` and `after`. */
  ghost predicate Linked(m0: Memory, m1: Memory, end: nat, o: nat, n: nat, after: nat)
  {
    && OnlyChanges(m0, m1, CutWords(o, n, after))
    && HasHeader(m1, n) && m1[n] == Tag(false) && m1[n + 4] == after && m1[n + 8] == o
    && o + 4 in m1 && m1[o + 4] == n
    && after + 8 in m1 && (after != end ==> m1[after + 8] == n)
  }

  /** `m1` is `m0` after block `i` of `v` was cut to `size` payload bytes. */
  ghost predicate CutWritten(m0: Memory, m1: Memory, v: seq<Block>, end: nat, i: nat, size: nat)
    requires i + 1 < |v|
  {
    Linked(m0, m1, end, v[i].off, v[i].off + HEADER + size, v[i + 1].off)
  }

  lemma CutHeaderBefore(m0: Memory, m1: Memory, v: seq<Block>, end: nat, i: nat, size: nat, k: nat)
    requires Tiled(v, HEADER, end) && Represents(m0, v) && i + 1 < |v|
    requires size % 4 == 0 && size + HEADER <= Room(v, i, HEADER)
    requires CutWritten(m0, m1, v, end, i, size) && k <= i
    ensures Header(m1, Cut(v, i, size, HEADER), k)
  {
    var w := Cut(v, i, size, HEADER);
    CutTiled(v, HEADER, end, i, size);
    assert Header(m0, v, k);
    assert w[k] == v[k];
    Separate(v, end, i, k);
    Separate(v, end, i + 1, k);
    Separate(w, end, i + 1, k);
  }

  lemma CutHeaderAfter(m0: Memory, m1: Memory, v: seq<Block>, end: nat, i: nat, size: nat, k: nat)
    requires Tiled(v, HEADER, end) && Represents(m0, v) && i + 1 < |v|
    requires size % 4 == 0 && size + HEADER <= Room(v, i, HEADER)
    requires CutWritten(m0, m1, v, end, i, size) && i < k < |v|
    ensures Header(m1, Cut(v, i, size, HEADER), k + 1)
  {
    var w := Cut(v, i, size, HEADER);
    CutTiled(v, HEADER, end, i, size);
    assert w[k + 1] == v[k];
    assert Header(m0, v, k);
    Separate(v, end, i, k);
    Separate(v, end, i + 1, k);
    Separate(w, end, i + 1, k + 1);
    if k == i + 1 && k < |v| - 1 { InOrder(v, HEADER, k, |v| - 1); }
  }

  lemma CutHeaderAt(m0: Memory, m1: Memory, v: seq<Block>, end: nat, i: nat, size: nat)
    requires Tiled(v, HEADER, end) && Represents(m0, v) && i + 1 < |v|
    requires size % 4 == 0 && size + HEADER <= Room(v, i, HEADER)
    requires CutWritten(m0, m1, v, end, i, size)
    ensures Header(m1, Cut(v, i, size, HEADER), i + 1)
  {
    var w := Cut(v, i, size, HEADER);
    assert w[i + 1] == Block(v[i].off + HEADER + size, false) && w[i] == v[i] && w[i + 2] == v[i + 1];
  }

  lemma CutOwned(m0: Memory, m1: Memory, v: seq<Block>, end: nat, i: nat, size: nat)
    requires Tiled(v, HEADER, end) && i + 1 < |v|
    requires size % 4 == 0 && size + HEADER <= Room(v, i, HEADER)
    requires CutWritten(m0, m1, v, end, i, size)
    ensures KeepsOwned(m0, m1, Cut(v, i, size, HEADER), HEADER)
  {
    var w := Cut(v, i, size, HEADER);
    CutTiled(v, HEADER, end, i, size);
    forall a: nat | a in m0 && Owned(w, a, HEADER) ensures m1[a] == m0[a] {
      OwnedClearOfHeader(w, HEADER, end, a, i);
      OwnedClearOfHeader(w, HEADER, end, a, i + 1);
      OwnedClearOfHeader(w, HEADER, end, a, i + 2);
    }
  }

  lemma CutRep(m0: Memory, m1: Memory, v: seq<Block>, end: nat, i: nat, size: nat)
    requires Tiled(v, HEADER, end) && Represents(m0, v) && i + 1 < |v|
    requires size % 4 == 0 && size + HEADER <= Room(v, i, HEADER)
    requires CutWritten(m0, m1, v, end, i, size)
    ensures Represents(m1, Cut(v, i, size, HEADER))
  {
    var w := Cut(v, i, size, HEADER);
    forall k: nat | k < |w| ensures Header(m1, w, k) {
      if k <= i { CutHeaderBefore(m0, m1, v, end, i, size, k); }
      else if k == i + 1 { CutHeaderAt(m0, m1, v, end, i, size); }
      else { CutHeaderAfter(m0, m1, v, end, i, size, k - 1); }
    }
  }

  /** What a cut finds in memory before it writes. */
  lemma CutFinds(m: Memory, v: seq<Block>, end: nat, i: nat, size: nat)
    requires Tiled(v, HEADER, end) && Represents(m, v) && Backed(m, end + HEADER) && i + 1 < |v|
    requires size % 4 == 0 && size + HEADER <= Room(v, i, HEADER)
    ensures var o := v[i].off; var n := o + HEADER + size;
      HasHeader(m, o) && HasHeader(m, n) && HasHeader(m, v[i + 1].off) && m[o + 4] == v[i + 1].off
  {
    assert Header(m, v, i) && Header(m, v, i + 1) && Aligned(v[i]);
    if i + 1 < |v| - 1 { InOrder(v, HEADER, i + 1, |v| - 1); }
    HeaderBacked(m, v[i].off + HEADER + size, end + HEADER);
  }

  /** What a cut leaves behind. */
  lemma CutLeaves(m0: Memory, m1: Memory, v: seq<Block>, end: nat, i: nat, size: nat)
    requires Tiled(v, HEADER, end) && Represents(m0, v) && Backed(m0, end + HEADER) && i + 1 < |v|
    requires size % 4 == 0 && size + HEADER <= Room(v, i, HEADER)
    requires CutWritten(m0, m1, v, end, i, size)
    ensures var w := Cut(v, i, size, HEADER);
      Tiled(w, HEADER, end) && Represents(m1, w) && Backed(m1, end + HEADER) && KeepsOwned(m0, m1, w, HEADER)
  {
    CutTiled(v, HEADER, end, i, size);
    CutRep(m0, m1, v, end, i, size);
    CutOwned(m0, m1, v, end, i, size);
  }

  /** mem2 = header at `n`; mem->next = n; and mem2->next->prev = n, unless that is the sentinel. */
  method LinkFree(m: Memory, end: nat, o: nat, n: nat, ghost after: nat) returns (r: Memory)
    requires HasHeader(m, o) && HasHeader(m, n) && HasHeader(m, after)
    requires o + HEADER <= n && n + HEADER <= after && m[o + 4] == after
    ensures Linked(m, r, end, o, n, after)
  {
    r := PutHeader(m, n, false, m[o + 4], o);
    r := r[o + 4 := n];
    if r[n + 4] != end {
      r := r[r[n + 4] + 8 := n];
    }
  }

  /** Only words in the payload of used blocks differ. */
  ghost predicate OnlyOwnedChange(m0: Memory, m1: Memory, v: seq<Block>)
  {
    m1.Keys == m0.Keys && forall a: nat {:trigger m1[a]} :: a in m0 && !Owned(v, a, HEADER) ==> m1[a] == m0[a]
  }

  /** Clients writing their own words disturb no header. */
  lemma OwnedWritesRep(m0: Memory, m1: Memory, v: seq<Block>, end: nat)
    requires Tiled(v, HEADER, end) && Represents(m0, v) && OnlyOwnedChange(m0, m1, v)
    ensures Represents(m1, v)
  {
    forall k: nat | k < |v| ensures Header(m1, v, k) {
      assert Header(m0, v, k);
      var o := v[k].off;
      if Owned(v, o, HEADER) { OwnedClearOfHeader(v, HEADER, end, o, k); }
      if Owned(v, o + 4, HEADER) { OwnedClearOfHeader(v, HEADER, end, o + 4, k); }
      if Owned(v, o + 8, HEADER) { OwnedClearOfHeader(v, HEADER, end, o + 8, k); }
    }
  }

}