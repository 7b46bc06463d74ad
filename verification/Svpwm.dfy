/** Space-vector modulation: the six-way branch of mc_svm.c, over the reals. */
module Svpwm {
  import opened RealFacts

  // mc_transform.h:19-22
  const SQRT3_BY2: real := 0.866025403788
  const ONE_BY_SQRT3: real := 0.5773502691
  const TWO_BY_SQRT3: real := 1.1547005384

  // ----- the sector-free form -----

  /** On-times of the three channels, as shares of the period or scaled by it. */
  datatype Duties = Duties(p1: real, p2: real, p3: real)

  function Vr1(alpha: real, beta: real): real { beta }

  function Vr2(alpha: real, beta: real): real { -beta / 2.0 + SQRT3_BY2 * alpha }

  function Vr3(alpha: real, beta: real): real { -beta / 2.0 - SQRT3_BY2 * alpha }

  function Shift(u1: real, u2: real, u3: real): real
  {
    (1.0 - Max3(u1, u2, u3) - Min3(u1, u2, u3)) / 2.0
  }

  /** Add the same amount to all three so that the largest and the smallest lie symmetrically in the period. */
  function Centre(u1: real, u2: real, u3: real): Duties
  {
    var s := Shift(u1, u2, u3);
    Duties(u1 + s, u2 + s, u3 + s)
  }

  function Shares(alpha: real, beta: real): Duties
  {
    Centre(Vr2(alpha, beta), 0.0, -Vr1(alpha, beta))
  }

  function Scale(period: real, p: Duties): Duties
  {
    Duties(period * p.p1, period * p.p2, period * p.p3)
  }

  function Modulate(alpha: real, beta: real, period: real): Duties
  {
    Scale(period, Shares(alpha, beta))
  }

  /** What modulation is for: the channels differ by the demanded line voltages, and are centred. */
  ghost predicate Realises(p: Duties, alpha: real, beta: real)
  {
    && p.p1 - p.p2 == Vr2(alpha, beta)
    && p.p2 - p.p3 == Vr1(alpha, beta)
    && p.p3 - p.p1 == Vr3(alpha, beta)
    && Max3(p.p1, p.p2, p.p3) + Min3(p.p1, p.p2, p.p3) == 1.0
  }

  /** The closed form is the one and only triple of shares that does it. */
  lemma SharesAreTheOnlyOnes(alpha: real, beta: real, p: Duties)
    ensures Realises(p, alpha, beta) <==> p == Shares(alpha, beta)
  {
    assert Vr3(alpha, beta) == -Vr1(alpha, beta) - Vr2(alpha, beta);
  }

  /** What that means for the motor: of three phases a + b + c == 0, whose vector the Clarke transform gives, any two
      channels differ as the two phases do.  `k` is 1 / sqrt 3, and the header's decimals are off by less than 1e-10. */
  lemma PhaseDifferences(a: real, b: real, c: real, alpha: real, beta: real, k: real)
    requires a + b + c == 0.0 && k > 0.0 && 3.0 * (k * k) == 1.0
    requires alpha == a && beta == a * 0.5773502691 + b * 1.1547005384
    ensures var p, e := Shares(alpha, beta), 0.0000000001 * (Abs(a) + Abs(b));
      && Abs(p.p1 - p.p2 - k * (a - b)) <= e
      && Abs(p.p2 - p.p3 - k * (b - c)) <= e
      && Abs(p.p3 - p.p1 - k * (c - a)) <= e
  {
    SharesAreTheOnlyOnes(alpha, beta, Shares(alpha, beta));
    hide *;
    RootOfThird(k);
    Products(a, b, c, alpha, beta, k, k * a, k * b, k * (a - b), k * (b - c), k * (c - a));
    RealisesSays(Shares(alpha, beta), alpha, beta);
  }

  lemma RealisesSays(p: Duties, alpha: real, beta: real)
    requires Realises(p, alpha, beta)
    ensures p.p1 - p.p2 == Vr2(alpha, beta) && p.p2 - p.p3 == Vr1(alpha, beta) && p.p3 - p.p1 == Vr3(alpha, beta)
  {
  }

  lemma Products(a: real, b: real, c: real, alpha: real, beta: real, k: real,
                 ka: real, kb: real, ab: real, bc: real, ca: real)
    requires a + b + c == 0.0 && 0.577350269189 <= k <= 0.57735026919
    requires alpha == a && beta == a * 0.5773502691 + b * 1.1547005384
    requires ka == k * a && kb == k * b && ab == k * (a - b) && bc == k * (b - c) && ca == k * (c - a)
    ensures var e := 0.0000000001 * (Abs(a) + Abs(b));
      && Abs(Vr2(alpha, beta) - ab) <= e && Abs(Vr1(alpha, beta) - bc) <= e && Abs(Vr3(alpha, beta) - ca) <= e
  {
    hide *;
    TimesRoot(k, a, ka);
    TimesRoot(k, b, kb);
    Expand(k, a, b, c);
    LinesNear(a, b, alpha, beta, ka, kb, ab, bc, ca);
  }

  lemma RootOfThird(k: real)
    requires k > 0.0 && 3.0 * (k * k) == 1.0
    ensures 0.577350269189 <= k <= 0.57735026919
  {
    if k < 0.577350269189 {
      SmallerFactor(k, 0.577350269189, k);
    } else if k > 0.57735026919 {
      SmallerFactor(0.57735026919, k, k);
    }
  }

  lemma TimesRoot(k: real, x: real, kx: real)
    requires 0.577350269189 <= k <= 0.57735026919 && kx == k * x
    ensures Abs(kx - 0.57735026919 * x) <= 0.000000000001 * Abs(x)
  {
    if x >= 0.0 {
      TimesRootUp(k, x, kx);
    } else {
      assert -kx == k * -x;
      TimesRootUp(k, -x, -kx);
    }
  }

  lemma TimesRootUp(k: real, x: real, kx: real)
    requires 0.577350269189 <= k <= 0.57735026919 && kx == k * x && x >= 0.0
    ensures Abs(kx - 0.57735026919 * x) <= 0.000000000001 * x
  {
    BoundedProduct(x, k, kx, 0.577350269189, 0.57735026919);
  }

  lemma BoundedProduct(x: real, k: real, kx: real, lo: real, hi: real)
    requires x >= 0.0 && lo <= k <= hi && kx == k * x
    ensures lo * x <= kx <= hi * x
  {
    SmallerFactor(lo, k, x);
    SmallerFactor(k, hi, x);
  }

  lemma Expand(k: real, a: real, b: real, c: real)
    requires a + b + c == 0.0
    ensures k * (a - b) == k * a - k * b && k * (b - c) == k * a + 2.0 * (k * b) && k * (c - a) == -2.0 * (k * a) - k * b
  {
    assert c == -a - b;
  }

  /** The three line voltages, with `ka` and `kb` for the exact products. */
  lemma LinesNear(a: real, b: real, alpha: real, beta: real, ka: real, kb: real, ab: real, bc: real, ca: real)
    requires alpha == a && beta == a * 0.5773502691 + b * 1.1547005384
    requires Abs(ka - 0.57735026919 * a) <= 0.000000000001 * Abs(a)
    requires Abs(kb - 0.57735026919 * b) <= 0.000000000001 * Abs(b)
    requires ab == ka - kb && bc == ka + 2.0 * kb && ca == -2.0 * ka - kb
    ensures var e := 0.0000000001 * (Abs(a) + Abs(b));
      && Abs(Vr2(alpha, beta) - ab) <= e && Abs(Vr1(alpha, beta) - bc) <= e && Abs(Vr3(alpha, beta) - ca) <= e
  {
  }

  // ----- when the on-times fit the period -----

  ghost predicate Fits(x: real, period: real)
  {
    0.0 <= x <= period
  }

  ghost predicate Within(p: Duties, period: real)
  {
    Fits(p.p1, period) && Fits(p.p2, period) && Fits(p.p3, period)
  }

  /** The widest demanded line voltage. */
  function Width(alpha: real, beta: real): real
  {
    Max3(Abs(Vr1(alpha, beta)), Abs(Vr2(alpha, beta)), Abs(Vr3(alpha, beta)))
  }

  /** The extreme on-times are symmetrical about half the period. */
  lemma Extremes(alpha: real, beta: real)
    ensures var p := Shares(alpha, beta);
      && Max3(p.p1, p.p2, p.p3) == (1.0 + Width(alpha, beta)) / 2.0
      && Min3(p.p1, p.p2, p.p3) == (1.0 - Width(alpha, beta)) / 2.0
  {
    assert Vr3(alpha, beta) == -Vr1(alpha, beta) - Vr2(alpha, beta);
  }

  lemma ScaledFits(period: real, x: real, y: real)
    requires period > 0.0 && y == period * x
    ensures Fits(y, period) <==> Fits(x, 1.0)
  {
    if x < 0.0 { assert period * -x > 0.0; }
    else if x > 1.0 { assert period * (x - 1.0) > 0.0; }
    else { assert period * x >= 0.0 && period * (1.0 - x) >= 0.0; }
  }

  lemma ScaledSums(period: real, p: Duties, q: Duties)
    requires q.p1 == period * p.p1 && q.p2 == period * p.p2 && q.p3 == period * p.p3
    ensures p.p1 + p.p2 == 1.0 ==> q.p1 + q.p2 == period
    ensures p.p2 + p.p3 == 1.0 ==> q.p2 + q.p3 == period
    ensures p.p3 + p.p1 == 1.0 ==> q.p3 + q.p1 == period
  {
    assert period * p.p1 + period * p.p2 == period * (p.p1 + p.p2);
    assert period * p.p2 + period * p.p3 == period * (p.p2 + p.p3);
    assert period * p.p3 + period * p.p1 == period * (p.p3 + p.p1);
  }

  lemma ScaledDuties(period: real, p: Duties, q: Duties)
    requires period > 0.0 && q.p1 == period * p.p1 && q.p2 == period * p.p2 && q.p3 == period * p.p3
    ensures Within(q, period) <==> Within(p, 1.0)
  {
    ScaledFits(period, p.p1, q.p1);
    ScaledFits(period, p.p2, q.p2);
    ScaledFits(period, p.p3, q.p3);
  }

  /** Every on-time fits the period exactly when no line voltage exceeds 1. */
  lemma FitsIffNotOvermodulated(alpha: real, beta: real, period: real)
    requires period > 0.0
    ensures Within(Modulate(alpha, beta, period), period) <==>
            Abs(Vr1(alpha, beta)) <= 1.0 && Abs(Vr2(alpha, beta)) <= 1.0 && Abs(Vr3(alpha, beta)) <= 1.0
  {
    ScaledDuties(period, Shares(alpha, beta), Modulate(alpha, beta, period));
    Extremes(alpha, beta);
  }

  /** The on-times before they are cut to integers. */
  lemma OnTimes(alpha: real, beta: real, period: real)
    ensures var p := Modulate(alpha, beta, period);
      && p.p1 - p.p2 == period * (0.866025403788 * alpha - beta / 2.0) && p.p2 - p.p3 == period * beta
      && (p.p1 + p.p2 == period || p.p2 + p.p3 == period || p.p3 + p.p1 == period)
  {
    var s := Shares(alpha, beta);
    assert s.p1 - s.p2 == 0.866025403788 * alpha - beta / 2.0 && s.p2 - s.p3 == beta;
    assert s.p1 + s.p2 == 1.0 || s.p2 + s.p3 == 1.0 || s.p3 + s.p1 == 1.0;
    hide *;
    Distributes(period, s.p1, s.p2);
    Distributes(period, s.p2, s.p3);
    ScaledSums(period, s, Modulate(alpha, beta, period));
  }

  // ----- shape -----

  /** The opposite vector gives the mirror image. */
  lemma OppositeVector(alpha: real, beta: real)
    ensures var p, q := Shares(alpha, beta), Shares(-alpha, -beta);
      q.p1 == 1.0 - p.p1 && q.p2 == 1.0 - p.p2 && q.p3 == 1.0 - p.p3
  {
    assert Vr1(-alpha, -beta) == -Vr1(alpha, beta) && Vr2(-alpha, -beta) == -Vr2(alpha, beta);
  }

  ghost predicate Near(p: Duties, q: Duties, e: real)
  {
    Abs(p.p1 - q.p1) <= e && Abs(p.p2 - q.p2) <= e && Abs(p.p3 - q.p3) <= e
  }

  /** No share moves by more than twice what the demand moves by: in particular nothing jumps where the code passes
      from one sector to the next. */
  lemma NoJumps(alpha: real, beta: real, alpha': real, beta': real, d: real)
    requires Abs(Vr1(alpha, beta) - Vr1(alpha', beta')) <= d && Abs(Vr2(alpha, beta) - Vr2(alpha', beta')) <= d
    ensures Near(Shares(alpha, beta), Shares(alpha', beta'), 2.0 * d)
  {
    CentreMoves(Vr2(alpha, beta), -Vr1(alpha, beta), Vr2(alpha', beta'), -Vr1(alpha', beta'), d);
  }

  lemma CentreMoves(a: real, c: real, a': real, c': real, e: real)
    requires Abs(a - a') <= e && Abs(c - c') <= e
    ensures Near(Centre(a, 0.0, c), Centre(a', 0.0, c'), 2.0 * e)
  {
    MaxMoves(a, c, a', c', e);
    hide *;
    ShiftMoves(a, c, Shift(a, 0.0, c), a', c', Shift(a', 0.0, c'), e);
  }

  lemma ShiftMoves(a: real, c: real, s: real, a': real, c': real, s': real, e: real)
    requires Abs(a - a') <= e && Abs(c - c') <= e && Abs(s - s') <= e
    requires s == Shift(a, 0.0, c) && s' == Shift(a', 0.0, c')
    ensures Near(Centre(a, 0.0, c), Centre(a', 0.0, c'), 2.0 * e)
  {
    hide Shift;
  }

  lemma MaxMoves(a: real, c: real, a': real, c': real, e: real)
    requires Abs(a - a') <= e && Abs(c - c') <= e
    ensures Abs(Shift(a, 0.0, c) - Shift(a', 0.0, c')) <= e
  {
    assert Abs(Max3(a, 0.0, c) - Max3(a', 0.0, c')) <= e;
    assert Abs(Min3(a, 0.0, c) - Min3(a', 0.0, c')) <= e;
    hide Max3, Min3;
  }

  // ----- the sector code -----

  /** (uint32_t): towards zero.  Outside [0, 2^32) the C cast is undefined; see FitsIffNotOvermodulated. */
  function Truncate(x: real): int
  {
    if x >= 0.0 then x.Floor else -((-x).Floor)
  }

  lemma TruncateCuts(x: real)
    ensures x >= 0.0 ==> Truncate(x) as real <= x < Truncate(x) as real + 1.0
    ensures x <= 0.0 ==> Truncate(x) as real - 1.0 < x <= Truncate(x) as real
  {
  }

  class SvPwm {
    const period: real
    var vr1: real
    var vr2: real
    var vr3: real
    var t1: real
    var t2: real
    var ta: real
    var tb: real
    var tc: real
    var pwm1: int
    var pwm2: int
    var pwm3: int

    constructor (period: real)
      ensures this.period == period
    {
      this.period := period;
    }

    /** mc_svpwm_time_calc.  `long`, `middle` and `short` are the shares of the period, `l`, `m` and `s` the times. */
    method TimeCalc(ghost long: real, ghost middle: real, ghost short: real, ghost l: real, ghost m: real, ghost s: real)
      requires long - middle == t1 && middle - short == t2 && long + short == 1.0
      requires l == period * long && m == period * middle && s == period * short
      modifies this`t1, this`t2, this`ta, this`tb, this`tc
      ensures ta == l && tb == m && tc == s
    {
      Distribute(period, long, middle, short);
      t1 := period * t1;
      t2 := period * t2;
      tc := (period - t1 - t2) / 2.0;
      tb := tc + t2;
      ta := tb + t1;
    }

    /** mc_svpwm_gen: whichever sector it takes, the on-times are those of the sector-free form. */
    method Gen(alpha: real, beta: real)
      modifies this
      ensures var p := Modulate(alpha, beta, period);
        pwm1 == Truncate(p.p1) && pwm2 == Truncate(p.p2) && pwm3 == Truncate(p.p3)
      // before the cut, the channels differ by the line voltages, and two of the on-times make up the period
      ensures var p := Modulate(alpha, beta, period);
        && p.p1 - p.p2 == period * (0.866025403788 * alpha - beta / 2.0) && p.p2 - p.p3 == period * beta
        && (p.p1 + p.p2 == period || p.p2 + p.p3 == period || p.p3 + p.p1 == period)
      // the cut itself
      ensures var p := Modulate(alpha, beta, period);
        && (p.p1 >= 0.0 ==> pwm1 as real <= p.p1 < pwm1 as real + 1.0)
        && (p.p2 >= 0.0 ==> pwm2 as real <= p.p2 < pwm2 as real + 1.0)
        && (p.p3 >= 0.0 ==> pwm3 as real <= p.p3 < pwm3 as real + 1.0)
    {
      OnTimes(alpha, beta, period);
      ghost var p := Modulate(alpha, beta, period);
      TruncateCuts(p.p1);
      TruncateCuts(p.p2);
      TruncateCuts(p.p3);
      hide Max3, Min3, Truncate;
      vr1 := beta;
      vr2 := -beta / 2.0 + SQRT3_BY2 * alpha;
      vr3 := -beta / 2.0 - SQRT3_BY2 * alpha;
      Select(Shares(alpha, beta), Modulate(alpha, beta, period));
    }

    /** The six-way branch. */
    method Select(ghost p: Duties, ghost q: Duties)
      requires vr1 + vr2 + vr3 == 0.0 && p == Centre(vr2, 0.0, -vr1)
      requires q.p1 == period * p.p1 && q.p2 == period * p.p2 && q.p3 == period * p.p3
      modifies this`t1, this`t2, this`ta, this`tb, this`tc, this`pwm1, this`pwm2, this`pwm3
      ensures pwm1 == Truncate(q.p1) && pwm2 == Truncate(q.p2) && pwm3 == Truncate(q.p3)
    {
      Centred(vr1, vr2, p);
      hide Centre, Truncate, Spread;
      if vr1 >= 0.0 { SelectUpper(p, q); } else { SelectLower(p, q); }
    }

    method SelectUpper(ghost p: Duties, ghost q: Duties)
      requires vr1 >= 0.0
      requires vr1 + vr2 + vr3 == 0.0 && p.p1 - p.p2 == vr2 && p.p2 - p.p3 == vr1 && Spread(p)
      requires q.p1 == period * p.p1 && q.p2 == period * p.p2 && q.p3 == period * p.p3
      modifies this`t1, this`t2, this`ta, this`tb, this`tc, this`pwm1, this`pwm2, this`pwm3
      ensures pwm1 == Truncate(q.p1) && pwm2 == Truncate(q.p2) && pwm3 == Truncate(q.p3)
    {
      hide Truncate;
      if vr2 >= 0.0 {
        t1, t2 := vr2, vr1;
        TimeCalc(p.p1, p.p2, p.p3, q.p1, q.p2, q.p3);
        pwm1, pwm2, pwm3 := Truncate(ta), Truncate(tb), Truncate(tc);
      } else if vr3 >= 0.0 {
        t1, t2 := vr1, vr3;
        TimeCalc(p.p2, p.p3, p.p1, q.p2, q.p3, q.p1);
        pwm1, pwm2, pwm3 := Truncate(tc), Truncate(ta), Truncate(tb);
      } else {
        t1, t2 := -vr2, -vr3;
        TimeCalc(p.p2, p.p1, p.p3, q.p2, q.p1, q.p3);
        pwm1, pwm2, pwm3 := Truncate(tb), Truncate(ta), Truncate(tc);
      }
    }

    method SelectLower(ghost p: Duties, ghost q: Duties)
      requires vr1 < 0.0
      requires vr1 + vr2 + vr3 == 0.0 && p.p1 - p.p2 == vr2 && p.p2 - p.p3 == vr1 && Spread(p)
      requires q.p1 == period * p.p1 && q.p2 == period * p.p2 && q.p3 == period * p.p3
      modifies this`t1, this`t2, this`ta, this`tb, this`tc, this`pwm1, this`pwm2, this`pwm3
      ensures pwm1 == Truncate(q.p1) && pwm2 == Truncate(q.p2) && pwm3 == Truncate(q.p3)
    {
      hide Truncate;
      if vr2 >= 0.0 {
        if vr3 >= 0.0 {
          t1, t2 := vr3, vr2;
          TimeCalc(p.p3, p.p1, p.p2, q.p3, q.p1, q.p2);
          pwm1, pwm2, pwm3 := Truncate(tb), Truncate(tc), Truncate(ta);
        } else {
          t1, t2 := -vr3, -vr1;
          TimeCalc(p.p1, p.p3, p.p2, q.p1, q.p3, q.p2);
          pwm1, pwm2, pwm3 := Truncate(ta), Truncate(tc), Truncate(tb);
        }
      } else {
        t1, t2 := -vr1, -vr2;
        TimeCalc(p.p3, p.p2, p.p1, q.p3, q.p2, q.p1);
        pwm1, pwm2, pwm3 := Truncate(tc), Truncate(tb), Truncate(ta);
      }
    }
  }

  /** In each of the six orders, the largest and the smallest share add up to the period. */
  ghost predicate Spread(p: Duties)
  {
    && (p.p1 >= p.p2 >= p.p3 || p.p1 <= p.p2 <= p.p3 ==> p.p1 + p.p3 == 1.0)
    && (p.p1 >= p.p3 >= p.p2 || p.p1 <= p.p3 <= p.p2 ==> p.p1 + p.p2 == 1.0)
    && (p.p2 >= p.p1 >= p.p3 || p.p2 <= p.p1 <= p.p3 ==> p.p2 + p.p3 == 1.0)
  }

  lemma Centred(vr1: real, vr2: real, p: Duties)
    requires p == Centre(vr2, 0.0, -vr1)
    ensures p.p1 - p.p2 == vr2 && p.p2 - p.p3 == vr1 && Spread(p)
  {
  }

  lemma Distribute(t: real, long: real, middle: real, short: real)
    requires long + short == 1.0
    ensures t * short == (t - t * (long - middle) - t * (middle - short)) / 2.0
    ensures t * middle == t * short + t * (middle - short)
    ensures t * long == t * middle + t * (long - middle)
  {
    assert t * long + t * short == t * (long + short);
  }
}
