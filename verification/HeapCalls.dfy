/** What the runs of the two allocators share: client calls, the live blocks that they name, and what becomes of those
    that they do not name. */
module HeapCalls {
  import opened Layout
  import opened LayoutLive
  import opened Words

  // ----- one client's block while others call -----

  /** The payload words of the block at `off` are what they were. */
  ghost predicate Undisturbed(m0: Memory, m1: Memory, off: nat, ext: nat, h: nat)
  {
    m1.Keys == m0.Keys && forall a: nat :: off + h <= a < off + ext ==> SameAt(m0, m1, a)
  }

  /** If the block is live in row `v`, it is live in row `w`, where it was and with the same words. */
  ghost predicate Spared(v: seq<Block>, m0: Memory, w: seq<Block>, m1: Memory, off: nat, ext: nat, h: nat)
  {
    IsLive(v, off, ext) ==> IsLive(w, off, ext) && Undisturbed(m0, m1, off, ext, h)
  }

  lemma UndisturbedOn(m0: Memory, m1: Memory, m2: Memory, off: nat, ext: nat, h: nat)
    requires Undisturbed(m0, m1, off, ext, h) && Undisturbed(m1, m2, off, ext, h)
    ensures Undisturbed(m0, m2, off, ext, h)
  {
    forall a: nat | off + h <= a < off + ext ensures SameAt(m0, m2, a) {
      assert SameAt(m0, m1, a) && SameAt(m1, m2, a);
    }
  }

  lemma SparedOn(u: seq<Block>, m0: Memory, v: seq<Block>, m1: Memory, w: seq<Block>, m2: Memory, off: nat, ext: nat,
                h: nat)
    requires Spared(u, m0, v, m1, off, ext, h) && Spared(v, m1, w, m2, off, ext, h)
    ensures Spared(u, m0, w, m2, off, ext, h)
  {
    if IsLive(u, off, ext) { UndisturbedOn(m0, m1, m2, off, ext, h); }
  }

  lemma KeptIsUndisturbed(m0: Memory, m1: Memory, v: seq<Block>, off: nat, ext: nat, h: nat)
    requires KeepsOwned(m0, m1, v, h) && IsLive(v, off, ext)
    ensures Undisturbed(m0, m1, off, ext, h)
  {
    forall a: nat | off + h <= a < off + ext ensures SameAt(m0, m1, a) { LiveIsOwned(v, h, off, ext, a); }
  }

  /** Different live blocks own different words. */
  lemma OwnedByAnother(v: seq<Block>, h: nat, end: nat, i: nat, off: nat, ext: nat, a: nat)
    requires Tiled(v, h, end) && i < |v| && v[i].off != off && IsLive(v, off, ext) && off + h <= a < off + ext
    ensures Owned(v, a, h) && !OwnedBy(v, i, a, h)
  {
    LiveIsOwned(v, h, off, ext, a);
    var k: nat :| LiveAt(v, k, off, ext);
    if k < i { if k + 1 < i { InOrder(v, h, k + 1, i); } }
    if i < k { if i + 1 < k { InOrder(v, h, i + 1, k); } }
  }

  /** A copy into one live block leaves every other one alone. */
  lemma CopySpares(v: seq<Block>, h: nat, end: nat, m0: Memory, m1: Memory, d: nat, room: nat, src: nat, n: nat,
                   off: nat, ext: nat)
    requires Tiled(v, h, end) && h % 4 == 0 && IsLive(v, d, h + room) && n <= room && off != d
    requires IsCopy(m0, m1, d + h, src, n)
    ensures Spared(v, m0, v, m1, off, ext, h)
  {
    if IsLive(v, off, ext) {
      LivePayloadsDisjoint(v, h, end, off, ext, d, h + room);
    }
  }

  /** Allocate, copy, free, with other threads' calls between the three: the data arrives if those leave the old block
      alone until the copy (`m0` to `m2`) and the new one from then on (`m3` to `m5`). */
  lemma DataArrives(m0: Memory, m2: Memory, m3: Memory, m5: Memory, s: nat, exts: nat, d: nat, extd: nat, n: nat, h: nat,
                    o: nat)
    requires Undisturbed(m0, m2, s, exts, h) && IsCopy(m2, m3, d + h, s + h, n) && Undisturbed(m3, m5, d, extd, h)
    requires h + n <= exts && h + n <= extd && o < n && s + h + o in m0 && d + h + o in m0
    ensures WordMoved(m0, m5, s + h, d + h, o)
  {
    assert SameAt(m0, m2, s + h + o) && SameAt(m3, m5, d + h + o) && CopiedAt(m2, m3, d + h, s + h, o);
  }

  // ----- what a call means to the clients, block by block and word by word -----

  lemma KeptForClients(m0: Memory, m1: Memory, v: seq<Block>, h: nat)
    requires KeepsOwned(m0, m1, v, h)
    ensures forall off: nat, ext: nat, a: nat ::
      IsLive(v, off, ext) && off + h <= a < off + ext && a in m0 ==> a in m1 && m1[a] == m0[a]
  {
    forall off: nat, ext: nat, a: nat | IsLive(v, off, ext) && off + h <= a < off + ext && a in m0
      ensures a in m1 && m1[a] == m0[a]
    {
      LiveIsOwned(v, h, off, ext, a);
    }
  }

  lemma OthersKeptForClients(m0: Memory, m1: Memory, v: seq<Block>, h: nat, end: nat, i: nat)
    requires Tiled(v, h, end) && i < |v| && OthersKept(m0, m1, v, i, h)
    ensures forall off: nat, ext: nat, a: nat ::
      IsLive(v, off, ext) && off != v[i].off && off + h <= a < off + ext && a in m0 ==> a in m1 && m1[a] == m0[a]
  {
    forall off: nat, ext: nat, a: nat
      | IsLive(v, off, ext) && off != v[i].off && off + h <= a < off + ext && a in m0
      ensures a in m1 && m1[a] == m0[a]
    {
      OwnedByAnother(v, h, end, i, off, ext, a);
    }
  }

  lemma ReleaseForClients(v: seq<Block>, h: nat, m0: Memory, m1: Memory, end: nat, i: nat)
    requires WellFormed(v, h, end) && i + 1 < |v| && v[i].used && KeepsOwned(m0, m1, Release(v, i), h)
    ensures forall off: nat, ext: nat :: IsLive(Release(v, i), off, ext) <==> IsLive(v, off, ext) && off != v[i].off
    ensures forall off: nat, ext: nat, a: nat ::
      IsLive(v, off, ext) && off != v[i].off && off + h <= a < off + ext && a in m0 ==> a in m1 && m1[a] == m0[a]
  {
    forall off: nat, ext: nat ensures IsLive(Release(v, i), off, ext) <==> IsLive(v, off, ext) && off != v[i].off {
      ReleaseLive(v, h, end, i, off, ext);
    }
    KeptForClients(m0, m1, Release(v, i), h);
  }

  lemma ShrinkForClients(v: seq<Block>, h: nat, m0: Memory, m1: Memory, end: nat, i: nat, n: nat)
    requires h % 4 == 0 && WellFormed(v, h, end) && Backed(m0, end + h) && i + 1 < |v| && v[i].used
    requires n % 4 == 0 && 0 < n && n + h <= Room(v, i, h) && KeepsOwned(m0, m1, Shrink(v, i, n, h), h)
    ensures IsLive(Shrink(v, i, n, h), v[i].off, h + n)
    ensures forall o: nat :: o % 4 == 0 && o < n ==> WordMoved(m0, m1, v[i].off + h, v[i].off + h, o)
    ensures forall off: nat, ext: nat :: IsLive(v, off, ext) && off != v[i].off ==> IsLive(Shrink(v, i, n, h), off, ext)
  {
    var w := Shrink(v, i, n, h);
    forall off: nat, ext: nat
      ensures IsLive(v, off, ext) && off != v[i].off ==> IsLive(w, off, ext)
      ensures off == v[i].off && ext == h + n ==> IsLive(w, off, ext)
    {
      ShrinkLive(v, h, end, i, n, off, ext);
    }
    forall o: nat | o % 4 == 0 && o < n ensures WordMoved(m0, m1, v[i].off + h, v[i].off + h, o) {
      PayloadWord(m0, v, h, end, i, o);
      var a := v[i].off + h + o;
      LiveIsOwned(w, h, v[i].off, h + n, a);
      assert m1[a] == m0[a];
    }
  }

  lemma ShrinkOthers(v: seq<Block>, h: nat, m0: Memory, m1: Memory, end: nat, i: nat, n: nat)
    requires h % 4 == 0 && WellFormed(v, h, end) && i + 1 < |v| && v[i].used
    requires n % 4 == 0 && 0 < n && n + h <= Room(v, i, h) && KeepsOwned(m0, m1, Shrink(v, i, n, h), h)
    ensures forall off: nat, ext: nat, a: nat ::
      IsLive(v, off, ext) && off != v[i].off && off + h <= a < off + ext && a in m0 ==> a in m1 && m1[a] == m0[a]
  {
    KeptForClients(m0, m1, Shrink(v, i, n, h), h);
    forall off: nat, ext: nat, a: nat
      | IsLive(v, off, ext) && off != v[i].off && off + h <= a < off + ext && a in m0
      ensures a in m1 && m1[a] == m0[a]
    {
      ShrinkLive(v, h, end, i, n, off, ext);
    }
  }

  /** WordMoved, address by address. */
  lemma DataInPlace(m0: Memory, m1: Memory, v: seq<Block>, h: nat, i: nat, d: nat, n: nat)
    requires i + 1 < |v| && v[i].off % 4 == 0 && h % 4 == 0
    requires forall o: nat :: o % 4 == 0 && o < Room(v, i, h) && o < n ==> WordMoved(m0, m1, v[i].off + h, d, o)
    ensures var s := v[i].off + h; forall a: nat, b: nat ::
      a % 4 == 0 && a in m0 && b in m1 && s <= a < v[i + 1].off && a - s == b - d < n ==> m1[b] == m0[a]
  {
    hide WordMoved;
    var s := v[i].off + h;
    forall a: nat, b: nat | a % 4 == 0 && a in m0 && b in m1 && s <= a < v[i + 1].off && a - s == b - d < n
      ensures m1[b] == m0[a]
    {
      Minus4(a, s);
      WordAt(m0, m1, s, d, a - s, a, b);
    }
  }

  lemma WordAt(m0: Memory, m1: Memory, s: nat, d: nat, o: nat, a: nat, b: nat)
    requires WordMoved(m0, m1, s, d, o) && a == s + o && b == d + o
    ensures a in m0 && b in m1 && m1[b] == m0[a]
  {
  }

  lemma Minus4(a: nat, b: nat)
    requires a % 4 == 0 && b % 4 == 0 && b <= a
    ensures (a - b) % 4 == 0
  {
  }

  // ----- calls -----

  /** A client call; `off` names the block by its header's offset. */
  datatype Call = AllocCall(size: nat) | FreeCall(off: nat) | ReallocCall(off: nat, newsize: nat)

  ghost predicate Names(c: Call, off: nat)
  {
    !c.AllocCall? && c.off == off
  }

  ghost predicate Unnamed(calls: seq<Call>, off: nat)
  {
    forall k :: 0 <= k < |calls| ==> !Names(calls[k], off)
  }

  lemma UnnamedRest(calls: seq<Call>, off: nat)
    requires calls != [] && Unnamed(calls, off)
    ensures !Names(calls[0], off) && Unnamed(calls[1..], off)
  {
    forall k | 0 <= k < |calls[1..]| ensures !Names(calls[1..][k], off) { assert !Names(calls[k + 1], off); }
  }

  ghost predicate LiveBlock(v: seq<Block>, i: nat, off: nat)
  {
    i + 1 < |v| && v[i] == Block(off, true)
  }

  ghost predicate HasLive(v: seq<Block>, off: nat)
  {
    exists i: nat :: LiveBlock(v, i, off)
  }

  ghost function LiveIndex(v: seq<Block>, off: nat): (i: nat)
    requires HasLive(v, off)
    ensures LiveBlock(v, i, off)
  {
    var i: nat :| LiveBlock(v, i, off); i
  }

  lemma LiveHas(v: seq<Block>, off: nat, ext: nat)
    requires IsLive(v, off, ext)
    ensures HasLive(v, off)
  {
    var k: nat :| LiveAt(v, k, off, ext);
    assert LiveBlock(v, k, off);
  }

  /** What a call leaves alone: every live block that it does not name. */
  ghost predicate SparesUnnamed(v: seq<Block>, m0: Memory, w: seq<Block>, m1: Memory, c: Call, h: nat)
  {
    forall off: nat, ext: nat :: !Names(c, off) ==> Spared(v, m0, w, m1, off, ext, h)
  }

  ghost predicate RunSpares(v: seq<Block>, m0: Memory, w: seq<Block>, m1: Memory, calls: seq<Call>, h: nat)
  {
    forall off: nat, ext: nat :: Unnamed(calls, off) ==> Spared(v, m0, w, m1, off, ext, h)
  }

  lemma RunSparesOn(v: seq<Block>, m0: Memory, u: seq<Block>, m1: Memory, w: seq<Block>, m2: Memory,
                    calls: seq<Call>, h: nat)
    requires calls != [] && SparesUnnamed(v, m0, u, m1, calls[0], h) && RunSpares(u, m1, w, m2, calls[1..], h)
    ensures RunSpares(v, m0, w, m2, calls, h)
  {
    forall off: nat, ext: nat | Unnamed(calls, off) ensures Spared(v, m0, w, m2, off, ext, h) {
      UnnamedRest(calls, off);
      SparedOn(v, m0, u, m1, w, m2, off, ext, h);
    }
  }

  /** Live blocks that a call does not name stay live. */
  ghost predicate LiveStays(v: seq<Block>, w: seq<Block>, c: Call)
  {
    forall off: nat, ext: nat :: !Names(c, off) && IsLive(v, off, ext) ==> IsLive(w, off, ext)
  }

  /** A call that keeps the words of every block live before, or of every block live after. */
  lemma KeptSpares(v: seq<Block>, m0: Memory, w: seq<Block>, m1: Memory, c: Call, h: nat)
    requires LiveStays(v, w, c) && (KeepsOwned(m0, m1, v, h) || KeepsOwned(m0, m1, w, h))
    ensures SparesUnnamed(v, m0, w, m1, c, h)
  {
    forall off: nat, ext: nat | !Names(c, off) && IsLive(v, off, ext) ensures Spared(v, m0, w, m1, off, ext, h) {
      if KeepsOwned(m0, m1, v, h) { KeptIsUndisturbed(m0, m1, v, off, ext, h); }
      else { KeptIsUndisturbed(m0, m1, w, off, ext, h); }
    }
  }

  /** A call that changes at most the words of the block it names. */
  lemma MovedSpares(v: seq<Block>, m0: Memory, w: seq<Block>, m1: Memory, c: Call, i: nat, end: nat, h: nat)
    requires Tiled(v, h, end) && c.ReallocCall? && LiveBlock(v, i, c.off)
    requires LiveStays(v, w, c) && OthersKept(m0, m1, v, i, h)
    ensures SparesUnnamed(v, m0, w, m1, c, h)
  {
    forall off: nat, ext: nat | !Names(c, off) && IsLive(v, off, ext) ensures Spared(v, m0, w, m1, off, ext, h) {
      forall a: nat | off + h <= a < off + ext ensures SameAt(m0, m1, a) {
        OwnedByAnother(v, h, end, i, off, ext, a);
      }
    }
  }

  lemma LiveInRun(v: seq<Block>, m0: Memory, w: seq<Block>, m1: Memory, calls: seq<Call>, off: nat, ext: nat, h: nat)
    requires RunSpares(v, m0, w, m1, calls, h) && Unnamed(calls, off) && IsLive(v, off, ext)
    ensures IsLive(w, off, ext)
  {
    assert Spared(v, m0, w, m1, off, ext, h);
  }

  // ----- realloc's move while others call -----

  /** Every live block but the one at `s` that neither sequence names is as it was. */
  ghost predicate BothSpare(v: seq<Block>, m0: Memory, w: seq<Block>, m1: Memory, s: nat, before: seq<Call>,
                            after: seq<Call>, h: nat)
  {
    forall off: nat, e: nat :: off != s && Unnamed(before, off) && Unnamed(after, off) ==>
      Spared(v, m0, w, m1, off, e, h)
  }

  ghost predicate FreeSpares(v: seq<Block>, m0: Memory, w: seq<Block>, m1: Memory, s: nat, after: seq<Call>, h: nat)
  {
    forall off: nat, e: nat :: off != s && Unnamed(after, off) ==> Spared(v, m0, w, m1, off, e, h)
  }

  lemma ThenFreed(v: seq<Block>, m0: Memory, u: seq<Block>, m1: Memory, w: seq<Block>, m2: Memory, s: nat,
                  after: seq<Call>, h: nat)
    requires RunSpares(v, m0, u, m1, after, h) && SparesUnnamed(u, m1, w, m2, FreeCall(s), h)
    ensures FreeSpares(v, m0, w, m2, s, after, h)
  {
    forall off: nat, e: nat | off != s && Unnamed(after, off) ensures Spared(v, m0, w, m2, off, e, h) {
      SparedOn(v, m0, u, m1, w, m2, off, e, h);
    }
  }

  lemma SpareBoth(v: seq<Block>, m0: Memory, u: seq<Block>, m1: Memory, w: seq<Block>, m2: Memory, s: nat,
                  before: seq<Call>, after: seq<Call>, h: nat)
    requires RunSpares(v, m0, u, m1, before, h) && FreeSpares(u, m1, w, m2, s, after, h)
    ensures BothSpare(v, m0, w, m2, s, before, after, h)
  {
    forall off: nat, e: nat | off != s && Unnamed(before, off) && Unnamed(after, off)
      ensures Spared(v, m0, w, m2, off, e, h)
    {
      SparedOn(v, m0, u, m1, w, m2, off, e, h);
    }
  }

  function Least(a: nat, b: nat): nat
  {
    if a < b then a else b
  }

  /** The words of both blocks exist. */
  ghost predicate BothBacked(m: Memory, s: nat, d: nat, n: nat, h: nat)
  {
    forall o: nat :: o < n && o % 4 == 0 ==> s + h + o in m && d + h + o in m
  }

  /** `d` is nobody's yet, and its words and those at `s` exist. */
  ghost predicate NewPlace(v: seq<Block>, m: Memory, s: nat, d: nat, count: nat, h: nat)
  {
    d != s && (forall e: nat :: !IsLive(v, d, e)) && BothBacked(m, s, d, count, h)
  }

  lemma WordsExist(v: seq<Block>, m: Memory, h: nat, end: nat, i: nat, k: nat, count: nat)
    requires h % 4 == 0 && Tiled(v, h, end) && Backed(m, end + h) && i + 1 < |v| && k + 1 < |v|
    requires count <= Room(v, i, h) && count <= Room(v, k, h)
    ensures BothBacked(m, v[i].off, v[k].off, count, h)
  {
    forall o: nat | o < count && o % 4 == 0 ensures v[i].off + h + o in m && v[k].off + h + o in m {
      PayloadWord(m, v, h, end, i, o);
      PayloadWord(m, v, h, end, k, o);
    }
  }

  ghost predicate CopySparesOthers(v: seq<Block>, m0: Memory, m1: Memory, d: nat, h: nat)
  {
    forall off: nat, e: nat :: off != d ==> Spared(v, m0, v, m1, off, e, h)
  }

  /** The new block `d` holds a copy of the first `count` bytes that the block at `s` had all along. */
  ghost predicate CopyMade(v: seq<Block>, m0: Memory, w: seq<Block>, m2: Memory, m3: Memory, s: nat, size: nat,
                           d: nat, room: nat, count: nat, h: nat)
  {
    && d != s && IsLive(w, d, h + room) && IsLive(w, s, h + size) && BothBacked(m0, s, d, count, h)
    && Undisturbed(m0, m2, s, h + size, h) && IsCopy(m2, m3, d + h, s + h, count)
  }

  lemma OldStaysLive(v: seq<Block>, m0: Memory, w: seq<Block>, m2: Memory, m3: Memory, s: nat, size: nat,
                     d: nat, room: nat, count: nat, h: nat)
    requires CopyMade(v, m0, w, m2, m3, s, size, d, room, count, h)
    ensures IsLive(w, s, h + size)
  {
  }

  lemma CopyIsMade(v0: seq<Block>, m0: Memory, v1: seq<Block>, m1: Memory, v2: seq<Block>, m2: Memory, m3: Memory, s: nat,
                   size: nat, n: nat, d: nat, room: nat, count: nat, before: seq<Call>, h: nat)
    requires IsLive(v0, s, h + size) && NewPlace(v0, m0, s, d, count, h)
    requires IsLive(v1, d, h + room) && Unnamed(before, s) && Unnamed(before, d)
    requires SparesUnnamed(v0, m0, v1, m1, AllocCall(n), h) && RunSpares(v1, m1, v2, m2, before, h)
    requires IsCopy(m2, m3, d + h, s + h, count) && CopySparesOthers(v2, m2, m3, d, h)
    ensures CopyMade(v0, m0, v2, m2, m3, s, size, d, room, count, h) && RunSpares(v0, m0, v2, m3, before, h)
  {
    assert Spared(v0, m0, v1, m1, s, h + size, h);
    assert Spared(v1, m1, v2, m2, s, h + size, h) && Spared(v1, m1, v2, m2, d, h + room, h);
    UndisturbedOn(m0, m1, m2, s, h + size, h);
    forall off: nat, e: nat | Unnamed(before, off) ensures Spared(v0, m0, v2, m3, off, e, h) {
      if off != d {
        SparedOn(v0, m0, v1, m1, v2, m2, off, e, h);
        SparedOn(v0, m0, v2, m2, v2, m3, off, e, h);
      }
    }
  }

  /** The first `n` bytes of the payload at `s` are at `d`. */
  ghost predicate Arrived(m0: Memory, m1: Memory, s: nat, d: nat, n: nat, h: nat)
  {
    forall o: nat :: o < n && o % 4 == 0 ==> WordMoved(m0, m1, s + h, d + h, o)
  }

  lemma ArrivedThen(m0: Memory, m2: Memory, m3: Memory, m5: Memory, s: nat, exts: nat, d: nat, extd: nat, n: nat,
                    h: nat)
    requires Undisturbed(m0, m2, s, exts, h) && IsCopy(m2, m3, d + h, s + h, n)
    requires Undisturbed(m3, m5, d, extd, h) && h + n <= exts && h + n <= extd && BothBacked(m0, s, d, n, h)
    ensures Arrived(m0, m5, s, d, n, h)
  {
    forall o: nat | o < n && o % 4 == 0 ensures WordMoved(m0, m5, s + h, d + h, o) {
      DataArrives(m0, m2, m3, m5, s, exts, d, extd, n, h, o);
    }
  }

  /** The block at `s` now lives at `d`, with its data. */
  ghost predicate DataAt(m0: Memory, w: seq<Block>, m1: Memory, s: nat, size: nat, n: nat, d: nat, room: nat, h: nat)
  {
    IsLive(w, d, h + room) && n <= room && Arrived(m0, m1, s, d, Least(size, n), h)
  }

  /** DataAt, address by address. */
  lemma DataAtAddresses(m0: Memory, w: seq<Block>, m1: Memory, s: nat, size: nat, n: nat, d: nat, room: nat, h: nat)
    requires DataAt(m0, w, m1, s, size, n, d, room, h) && (s + h) % 4 == 0
    ensures IsLive(w, d, h + room) && n <= room
    ensures forall a: nat, b: nat :: (a % 4 == 0 && a in m0 && b in m1 && s + h <= a < s + h + size
                                      && a - (s + h) == b - (d + h) < n) ==> m1[b] == m0[a]
  {
    forall a: nat, b: nat | a % 4 == 0 && a in m0 && b in m1 && s + h <= a < s + h + size && a - (s + h) == b - (d + h) < n
      ensures m1[b] == m0[a]
    {
      Minus4(a, s + h);
      WordAt(m0, m1, s + h, d + h, a - (s + h), a, b);
    }
  }

  lemma DataIsAt(v0: seq<Block>, m0: Memory, v3: seq<Block>, m2: Memory, m3: Memory, w: seq<Block>, m5: Memory, s: nat,
                 size: nat, n: nat, d: nat, room: nat, after: seq<Call>, h: nat)
    requires CopyMade(v0, m0, v3, m2, m3, s, size, d, room, Least(size, n), h) && n <= room
    requires FreeSpares(v3, m3, w, m5, s, after, h) && Unnamed(after, d)
    ensures DataAt(m0, w, m5, s, size, n, d, room, h)
  {
    assert Spared(v3, m3, w, m5, d, h + room, h);
    ArrivedThen(m0, m2, m3, m5, s, h + size, d, h + room, Least(size, n), h);
  }
}
