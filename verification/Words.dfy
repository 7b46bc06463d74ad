/** What the two allocators share below the row of blocks: sizes in 32 bits, memory in words, and the words' owners. */
module Words {
  import opened Layout

  type Memory = map<nat, nat>

  const TWO32 := 0x1_0000_0000

  // ----- sizes -----

  /** RT_ALIGN(x, 4) in 32-bit arithmetic: sizes above 2^32 - 4 wrap round to 0. */
  function Align4(x: nat): nat
  {
    (x + 3) % TWO32 / 4 * 4
  }

  /** 32-bit subtraction. */
  function Sub32(x: nat, y: nat): nat
    requires x < TWO32 && y < TWO32
  {
    if x >= y then x - y else x + TWO32 - y
  }

  /** The payload bytes that rt_malloc and rt_memheap_alloc look for. */
  function Need(size: nat): nat
  {
    var n := Align4(size); if n < MIN_SIZE then MIN_SIZE else n
  }

  lemma AlignFacts(x: nat)
    ensures Align4(x) % 4 == 0
    ensures x <= TWO32 - 4 ==> x <= Align4(x) < x + 4
    ensures TWO32 - 4 < x < TWO32 ==> Align4(x) == 0
  {
  }

  lemma NeedFacts(x: nat)
    ensures Need(x) % 4 == 0 && MIN_SIZE <= Need(x) < TWO32
  {
  }

  /** What is looked for: the request rounded up to words, but at least 12 bytes; 12 also where rounding up wraps. */
  lemma NeedIs(size: nat)
    requires size < TWO32
    ensures size <= 12 || size > TWO32 - 4 ==> Need(size) == 12
    ensures 12 <= size <= TWO32 - 4 ==> Need(size) % 4 == 0 && size <= Need(size) < size + 4
  {
    AlignFacts(size);
  }

  lemma AlignTwice(x: nat)
    ensures Align4(Align4(x)) == Align4(x) && Need(Align4(x)) == Need(x) == Need(Need(x))
  {
  }

  lemma MultipleOf4(t: nat, a: nat)
    requires a % 4 == 0
    ensures t * a % 4 == 0
  {
    var q := a / 4;
    assert t * a == 4 * (t * q);
  }

  /** A block big enough for the request is looked for exactly when the rounded size does not wrap. */
  lemma RequestCovered(size: nat)
    requires size < TWO32
    ensures size <= Need(size) <==> size <= TWO32 - 4
  {
    AlignFacts(size);
  }

  // ----- words in memory -----

  /** Every aligned word of [0, size) exists. */
  ghost predicate Backed(mem: Memory, size: nat)
  {
    forall a: nat :: a < size && a % 4 == 0 ==> a in mem
  }

  ghost predicate CopiedAt(m0: Memory, m1: Memory, dst: nat, src: nat, o: nat)
  {
    src + o in m0 && dst + o in m1 ==> m1[dst + o] == m0[src + o]
  }

  ghost predicate SameAt(m0: Memory, m1: Memory, a: nat)
  {
    a in m0 && a in m1 ==> m1[a] == m0[a]
  }

  /** `m1` is `m0` after rt_memcpy(dst, src, n) between word-aligned regions. */
  ghost predicate IsCopy(m0: Memory, m1: Memory, dst: nat, src: nat, n: nat)
  {
    && m1.Keys == m0.Keys
    && (forall o: nat :: o < n ==> CopiedAt(m0, m1, dst, src, o))
    && (forall a: nat :: a < dst || dst + n <= a ==> SameAt(m0, m1, a))
  }

  function CopiedWord(m: Memory, dst: nat, src: nat, n: nat, a: nat): nat
    requires a in m
  {
    if dst <= a < dst + n && src + (a - dst) in m then m[src + (a - dst)] else m[a]
  }

  method MemCopy(m: Memory, dst: nat, src: nat, n: nat) returns (r: Memory)
    ensures IsCopy(m, r, dst, src, n)
  {
    r := map a: nat | a in m :: CopiedWord(m, dst, src, n, a);
    assert forall a: nat :: a in r ==> a in m && r[a] == CopiedWord(m, dst, src, n, a);
    forall o: nat | o < n ensures CopiedAt(m, r, dst, src, o) {
      var at := dst + o;
      if src + o in m && at in r { assert r[at] == CopiedWord(m, dst, src, n, at) && at - dst == o; }
    }
    forall a: nat | a < dst || dst + n <= a ensures SameAt(m, r, a) { }
  }

  lemma Mod4Sum(x: nat, y: nat, z: nat)
    requires x % 4 == 0 && y % 4 == 0 && z % 4 == 0
    ensures (x + y + z) % 4 == 0
  {
  }

  /** Word `o` of the data is where the client will look for it. */
  ghost predicate WordMoved(m0: Memory, m1: Memory, src: nat, dst: nat, o: nat)
  {
    src + o in m0 && dst + o in m1 && m1[dst + o] == m0[src + o]
  }

  // ----- words in clients' hands -----

  /** Word `a` belongs to a client: it lies in the payload of a used block. */
  ghost predicate Owned(v: seq<Block>, a: nat, h: nat)
  {
    exists k: nat :: OwnedBy(v, k, a, h)
  }

  ghost predicate OwnedBy(v: seq<Block>, k: nat, a: nat, h: nat)
  {
    k + 1 < |v| && v[k].used && v[k].off + h <= a < v[k + 1].off
  }

  /** No client of row `v` sees a word change. */
  ghost predicate KeepsOwned(m0: Memory, m1: Memory, v: seq<Block>, h: nat)
  {
    m1.Keys == m0.Keys && forall a: nat {:trigger m1[a]} :: a in m0 && Owned(v, a, h) ==> m1[a] == m0[a]
  }

  lemma OwnedClearOfHeader(v: seq<Block>, h: nat, end: nat, a: nat, k: nat)
    requires Tiled(v, h, end) && Owned(v, a, h) && k < |v|
    ensures a < v[k].off || v[k].off + h <= a
  {
    var j: nat :| OwnedBy(v, j, a, h);
    if k < j { InOrder(v, h, k, j); }
    if j + 1 < k { InOrder(v, h, j + 1, k); }
  }

  lemma OwnedIsLive(v: seq<Block>, h: nat, end: nat, a: nat)
    requires Tiled(v, h, end) && Owned(v, a, h)
    ensures exists off: nat, ext: nat :: IsLive(v, off, ext) && off + h <= a < off + ext
  {
    var k: nat :| OwnedBy(v, k, a, h);
    assert LiveAt(v, k, v[k].off, v[k + 1].off - v[k].off);
    assert IsLive(v, v[k].off, v[k + 1].off - v[k].off);
  }

  lemma LiveIsOwned(v: seq<Block>, h: nat, off: nat, ext: nat, a: nat)
    requires IsLive(v, off, ext) && off + h <= a < off + ext
    ensures Owned(v, a, h)
  {
    var k: nat :| LiveAt(v, k, off, ext);
    assert OwnedBy(v, k, a, h);
  }

  /** If everything live in `w` is live in `v`, whatever `w`'s clients own `v`'s clients own. */
  lemma OwnedSubset(v: seq<Block>, w: seq<Block>, h: nat, end: nat, a: nat)
    requires Tiled(w, h, end) && Owned(w, a, h)
    requires forall off: nat, ext: nat :: IsLive(w, off, ext) ==> IsLive(v, off, ext)
    ensures Owned(v, a, h)
  {
    OwnedIsLive(w, h, end, a);
    var off: nat, ext: nat :| IsLive(w, off, ext) && off + h <= a < off + ext;
    LiveIsOwned(v, h, off, ext, a);
  }

  lemma NotInFreeBlock(v: seq<Block>, h: nat, end: nat, k: nat, a: nat)
    requires Tiled(v, h, end) && k + 1 < |v| && !v[k].used && Owned(v, a, h)
    ensures a < v[k].off || v[k + 1].off <= a
  {
    var j: nat :| OwnedBy(v, j, a, h);
    if j + 1 < k { InOrder(v, h, j + 1, k); }
    if k + 1 < j { InOrder(v, h, k + 1, j); }
  }

  /** No client's word changed but those of block `i`. */
  ghost predicate OthersKept(m0: Memory, m1: Memory, v: seq<Block>, i: nat, h: nat)
  {
    && m1.Keys == m0.Keys
    && forall a: nat {:trigger m1[a]} :: a in m0 && Owned(v, a, h) && !OwnedBy(v, i, a, h) ==> m1[a] == m0[a]
  }

  lemma PayloadWord(m: Memory, v: seq<Block>, h: nat, end: nat, i: nat, o: nat)
    requires h % 4 == 0 && Tiled(v, h, end) && Backed(m, end + h) && i + 1 < |v|
    requires o % 4 == 0 && o < Room(v, i, h)
    ensures v[i].off + h + o in m
  {
    assert Aligned(v[i]);
    LastOffset(v, h, end, i + 1);
    Mod4Sum(v[i].off, h, o);
  }
}
