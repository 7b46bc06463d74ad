/** Double-ended queues, as a reference for what the mailbox and the message queue do with their mails: sent ones go in
    at the back, urgent ones at the front, received ones come out at the front, and a reset drops everything. */
module Deque {

  datatype Op<T> = Back(value: T) | Front(value: T) | Out(value: T) | Clear

  /** The operations lead from contents `m` to contents `m'`, and every `Out` takes what was first. */
  ghost predicate Legal<T>(m: seq<T>, ops: seq<Op<T>>, m': seq<T>)
    decreases |ops|
  {
    if ops == [] then m == m'
    else
      match ops[0]
      case Back(x) => Legal(m + [x], ops[1..], m')
      case Front(x) => Legal([x] + m, ops[1..], m')
      case Out(x) => m != [] && m[0] == x && Legal(m[1..], ops[1..], m')
      case Clear => Legal([], ops[1..], m')
  }

  lemma {:induction false} LegalAppend<T>(m: seq<T>, a: seq<Op<T>>, m1: seq<T>, b: seq<Op<T>>, m2: seq<T>)
    requires Legal(m, a, m1) && Legal(m1, b, m2)
    ensures Legal(m, a + b, m2)
    decreases |a|
  {
    if a == [] {
      assert a + b == b;
    } else {
      assert (a + b)[0] == a[0] && (a + b)[1..] == a[1..] + b;
      match a[0]
      case Back(x) => LegalAppend(m + [x], a[1..], m1, b, m2);
      case Front(x) => LegalAppend([x] + m, a[1..], m1, b, m2);
      case Out(x) => LegalAppend(m[1..], a[1..], m1, b, m2);
      case Clear => LegalAppend([], a[1..], m1, b, m2);
    }
  }

  /** What goes in at the back, and what comes out. */
  ghost function Sent<T>(ops: seq<Op<T>>): seq<T>
  {
    if ops == [] then [] else (if ops[0].Back? then [ops[0].value] else []) + Sent(ops[1..])
  }

  ghost function Received<T>(ops: seq<Op<T>>): seq<T>
  {
    if ops == [] then [] else (if ops[0].Out? then [ops[0].value] else []) + Received(ops[1..])
  }

  ghost predicate NoUrgentOrReset<T>(ops: seq<Op<T>>)
  {
    forall i :: 0 <= i < |ops| ==> ops[i].Back? || ops[i].Out?
  }

  /** First in, first out, as long as nothing is urgent and nothing is dropped. */
  lemma {:induction false} FirstInFirstOut<T>(m: seq<T>, ops: seq<Op<T>>, m': seq<T>)
    requires Legal(m, ops, m') && NoUrgentOrReset(ops)
    ensures m + Sent(ops) == Received(ops) + m'
    decreases |ops|
  {
    if ops != [] {
      var rest := ops[1..];
      assert ops[0].Back? || ops[0].Out?;
      forall i | 0 <= i < |rest| ensures rest[i].Back? || rest[i].Out? { assert rest[i] == ops[i + 1]; }
      var put, got := if ops[0].Back? then [ops[0].value] else [], if ops[0].Out? then [ops[0].value] else [];
      var m1 := if ops[0].Back? then m + put else m[1..];
      FirstInFirstOut(m1, rest, m');
      assert m + put == got + m1;
      Reassociate(m, put, Sent(rest), got, m1, Received(rest), m');
    }
  }

  /** One step of "what was put in follows what was taken out", from the step to the run. */
  lemma Reassociate<T>(m: seq<T>, put: seq<T>, sent: seq<T>, got: seq<T>, m1: seq<T>, received: seq<T>, final: seq<T>)
    requires m + put == got + m1 && m1 + sent == received + final
    ensures m + (put + sent) == (got + received) + final
  {
    assert m + (put + sent) == (m + put) + sent;
    assert (got + m1) + sent == got + (m1 + sent);
    assert got + (received + final) == (got + received) + final;
  }

  function Count<T(==)>(s: seq<T>, y: T): nat
  {
    if s == [] then 0 else (if s[0] == y then 1 else 0) + Count(s[1..], y)
  }

  lemma {:induction false} CountAppend<T>(s: seq<T>, t: seq<T>, y: T)
    ensures Count(s + t, y) == Count(s, y) + Count(t, y)
  {
    if s == [] {
      assert s + t == t;
    } else {
      assert (s + t)[1..] == s[1..] + t;
      CountAppend(s[1..], t, y);
    }
  }

  /** How often `y` goes in, at either end. */
  ghost function PutIn<T>(ops: seq<Op<T>>, y: T): nat
  {
    if ops == [] then 0
    else (if (ops[0].Back? || ops[0].Front?) && ops[0].value == y then 1 else 0) + PutIn(ops[1..], y)
  }

  /** How often the resets drop `y`. */
  ghost function Dropped<T>(m: seq<T>, ops: seq<Op<T>>, y: T): nat
    decreases |ops|
  {
    if ops == [] then 0
    else
      match ops[0]
      case Back(x) => Dropped(m + [x], ops[1..], y)
      case Front(x) => Dropped([x] + m, ops[1..], y)
      case Out(x) => Dropped(if m == [] then [] else m[1..], ops[1..], y)
      case Clear => Count(m, y) + Dropped([], ops[1..], y)
  }

  /** `y` is received, dropped, or still there as often as it was there or went in. */
  ghost predicate Balanced<T>(m: seq<T>, ops: seq<Op<T>>, m': seq<T>, y: T)
  {
    Count(m, y) + PutIn(ops, y) == Count(Received(ops), y) + Dropped(m, ops, y) + Count(m', y)
  }

  /** Nothing is lost, doubled or made up: what was there and what went in is received, dropped, or still there. */
  lemma {:induction false} NothingLost<T>(m: seq<T>, ops: seq<Op<T>>, m': seq<T>, y: T)
    requires Legal(m, ops, m')
    ensures Balanced(m, ops, m', y)
    decreases |ops|
  {
    if ops != [] {
      var rest := ops[1..];
      var out := if ops[0].Out? then [ops[0].value] else [];
      assert Received(ops) == out + Received(rest);
      CountAppend(out, Received(rest), y);
      match ops[0]
      case Back(x) =>
        CountAppend(m, [x], y);
        NothingLost(m + [x], rest, m', y);
      case Front(x) =>
        CountAppend([x], m, y);
        NothingLost([x] + m, rest, m', y);
      case Out(x) => NothingLost(m[1..], rest, m', y);
      case Clear => NothingLost([], rest, m', y);
    }
  }
}
