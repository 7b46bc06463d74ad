/** Real-number functions and facts that the motor-control modules share. */
module RealFacts {

  function Min(a: real, b: real): real { if a <= b then a else b }

  function Max(a: real, b: real): real { if a >= b then a else b }

  function Min3(a: real, b: real, c: real): real { Min(a, Min(b, c)) }

  function Max3(a: real, b: real, c: real): real { Max(a, Max(b, c)) }

  function Abs(x: real): real { if x >= 0.0 then x else -x }

  lemma NonNegative(a: real, b: real)
    requires a >= 0.0 && b >= 0.0
    ensures a * b >= 0.0
  {
  }

  lemma Distributes(k: real, a: real, b: real)
    ensures k * (a - b) == k * a - k * b
  {
  }

  lemma Positive(a: real, b: real)
    requires a > 0.0 && b > 0.0
    ensures a * b > 0.0
  {
  }

  lemma SmallerFactor(w: real, v: real, d: real)
    requires w <= v && d >= 0.0
    ensures d * w <= d * v
  {
    NonNegative(d, v - w);
    Distributes(d, v, w);
  }

  lemma AbsProduct(k: real, x: real, e: real)
    requires k >= 0.0 && Abs(x) <= e
    ensures Abs(k * x) <= k * e
  {
    NonNegative(k, e - x);
    NonNegative(k, e + x);
    Distributes(k, e, x);
    Distributes(k, e, -x);
    assert k * -x == -(k * x);
  }
}
