/** Sequences of numbers in which none occurs twice: queues of threads, lists of slots, lists of blocks. */
module Sequences {

  ghost predicate NoDup(q: seq<nat>)
  {
    forall i, j :: 0 <= i < j < |q| ==> q[i] != q[j]
  }

  /** `q` once `t` has left it. */
  function Without(q: seq<nat>, t: nat): seq<nat>
  {
    if q == [] then [] else if q[0] == t then q[1..] else [q[0]] + Without(q[1..], t)
  }

  lemma {:induction false} WithoutMembers(q: seq<nat>, t: nat)
    requires NoDup(q)
    ensures NoDup(Without(q, t)) && t !in Without(q, t)
    ensures forall x :: x in Without(q, t) <==> x in q && x != t
    ensures |Without(q, t)| == if t in q then |q| - 1 else |q|
  {
    if q == [] {
    } else if q[0] == t {
      assert q == [t] + q[1..];
    } else {
      WithoutMembers(q[1..], t);
      assert q == [q[0]] + q[1..];
      forall x ensures x in Without(q, t) <==> x in q && x != t {
        assert x in Without(q, t) <==> x == q[0] || x in Without(q[1..], t);
      }
      ConsNoDup(q[0], q[1..], Without(q[1..], t));
    }
  }

  /** Only `t` goes, and the others keep their order. */
  lemma {:induction false} WithoutSplices(q: seq<nat>, t: nat) returns (k: nat)
    requires t in q
    ensures k < |q| && q[k] == t && Without(q, t) == q[..k] + q[k + 1..]
  {
    if q[0] == t {
      return 0;
    } else {
      var rest := q[1..];
      assert q == [q[0]] + rest;
      k := WithoutSplices(rest, t);
      assert q[..k + 1] == [q[0]] + rest[..k] && q[k + 2..] == rest[k + 1..];
      return k + 1;
    }
  }

  lemma ConsNoDup(h: nat, q: seq<nat>, w: seq<nat>)
    requires NoDup([h] + q) && NoDup(w) && (forall x :: x in w ==> x in q)
    ensures NoDup([h] + w)
  {
    var hq, hw := [h] + q, [h] + w;
    forall i, j | 0 <= i < j < |hw| ensures hw[i] != hw[j] {
      if i == 0 {
        assert hw[j] == w[j - 1] && w[j - 1] in q;
        var m :| 0 <= m < |q| && q[m] == w[j - 1];
        assert hq[m + 1] == q[m] && hq[0] == h && hq[0] != hq[m + 1];
      } else {
        assert hw[i] == w[i - 1] && hw[j] == w[j - 1];
      }
    }
  }

  lemma {:induction false} WithoutHeadIsTail(q: seq<nat>)
    requires q != []
    ensures Without(q, q[0]) == q[1..]
  {
  }

  lemma {:induction false} WithoutAbsent(q: seq<nat>, t: nat)
    requires t !in q
    ensures Without(q, t) == q
  {
    if q != [] { WithoutAbsent(q[1..], t); }
  }

  lemma {:induction false} WithoutLast(q: seq<nat>)
    requires NoDup(q) && q != []
    ensures Without(q, q[|q| - 1]) == q[..|q| - 1]
  {
    if |q| > 1 {
      WithoutLast(q[1..]);
      assert q[1..][..|q| - 2] == q[1..|q| - 1];
    }
  }

  lemma {:induction false} WithoutFront(q: seq<nat>, t: nat)
    requires q != [] && q[|q| - 1] != t
    ensures Without(q, t) == Without(q[..|q| - 1], t) + [q[|q| - 1]]
  {
    if |q| > 1 {
      WithoutFront(q[1..], t);
      assert q[1..][..|q| - 2] == q[..|q| - 1][1..];
    }
  }

  lemma ConsMembers(h: nat, s: seq<nat>)
    ensures forall x :: x in [h] + s <==> x == h || x in s
    ensures forall x :: x in s + [h] <==> x == h || x in s
    ensures h !in s && NoDup(s) ==> NoDup([h] + s) && NoDup(s + [h])
  {
    assert forall x :: x in [h] + s <==> x == h || x in s;
    forall x ensures x in s + [h] <==> x == h || x in s { assert (s + [h])[|s|] == h; }
  }

  lemma HeadOf(s: seq<nat>)
    requires s != [] && NoDup(s)
    ensures s[0] !in s[1..] && NoDup(s[1..])
    ensures forall x :: x in s <==> x == s[0] || x in s[1..]
  {
    assert s == [s[0]] + s[1..];
    forall i | 0 <= i < |s[1..]| ensures s[1..][i] != s[0] { assert s[i + 1] != s[0]; }
    forall i, j | 0 <= i < j < |s[1..]| ensures s[1..][i] != s[1..][j] { assert s[i + 1] != s[j + 1]; }
  }

  lemma {:induction false} WithoutAt(s: seq<nat>, k: nat)
    requires NoDup(s) && k < |s|
    ensures Without(s, s[k]) == s[..k] + s[k + 1..]
  {
    if k == 0 {
      assert s[..0] + s[1..] == s[1..];
    } else {
      var t := s[1..];
      HeadOf(s);
      assert s[0] != s[k] && t[k - 1] == s[k];
      WithoutAt(t, k - 1);
      SpliceHead(s, k);
      assert Without(s, s[k]) == [s[0]] + Without(t, s[k]);
    }
  }

  lemma SpliceHead(s: seq<nat>, k: nat)
    requires 0 < k < |s|
    ensures [s[0]] + (s[1..][..k - 1] + s[1..][k..]) == s[..k] + s[k + 1..]
  {
    assert [s[0]] + s[1..][..k - 1] == s[..k];
  }

  // ----- backwards -----

  function Reversed(q: seq<nat>): seq<nat>
  {
    if q == [] then [] else [q[|q| - 1]] + Reversed(q[..|q| - 1])
  }

  lemma {:induction false} ReversedMembers(q: seq<nat>)
    ensures forall x :: x in Reversed(q) <==> x in q
    ensures NoDup(q) ==> NoDup(Reversed(q))
    ensures |Reversed(q)| == |q|
  {
    if q != [] {
      var front, last := q[..|q| - 1], q[|q| - 1];
      assert q == front + [last];
      ReversedMembers(front);
      ConsMembers(last, front);
      ConsMembers(last, Reversed(front));
      if NoDup(q) {
        assert last !in front;
        assert NoDup(front);
      }
    }
  }

  lemma {:induction false} ReversedWithout(q: seq<nat>, t: nat)
    requires NoDup(q)
    ensures Reversed(Without(q, t)) == Without(Reversed(q), t)
  {
    if q != [] {
      var front, last := q[..|q| - 1], q[|q| - 1];
      assert q == front + [last];
      assert Reversed(q)[0] == last && Reversed(q)[1..] == Reversed(front);
      if last == t {
        WithoutLast(q);
      } else {
        ReversedWithout(front, t);
        WithoutFront(q, t);
        var w := Without(front, t);
        assert (w + [last])[..|w|] == w;
      }
    }
  }
}
