/** The proportional-integral controller of mc_control.c, over the reals. */
module PiControl {
  import opened RealFacts

  /** The gains and limits. */
  datatype Gains = Gains(kp: real, ki: real, kc: real, outMax: real, outMin: real)

  function Clamp(x: real, lo: real, hi: real): real
  {
    if x > hi then hi else if x < lo then lo else x
  }

  function Raw(g: Gains, sum: real, err: real): real
  {
    sum + g.kp * err
  }

  function Output(g: Gains, sum: real, err: real): real
  {
    Clamp(Raw(g, sum, err), g.outMin, g.outMax)
  }

  /** The integrator after one period: what the limiter cut off is fed back with gain kc. */
  function Next(g: Gains, sum: real, err: real): real
  {
    sum + g.ki * err - g.kc * (Raw(g, sum, err) - Output(g, sum, err))
  }

  lemma NextIs(g: Gains, sum: real, err: real, exc: real)
    requires exc == Raw(g, sum, err) - Output(g, sum, err)
    ensures sum + g.ki * err - g.kc * exc == Next(g, sum, err)
  {
  }

  class PiController {
    const gains: Gains
    var dSum: real
    var inRef: real
    var inMeas: real
    var out: real

    constructor (gains: Gains)
      ensures this.gains == gains && dSum == 0.0
    {
      this.gains := gains;
      dSum, inRef, inMeas, out := 0.0, 0.0, 0.0, 0.0;
    }

    /** mc_pi_control. */
    method Control()
      modifies this`out, this`dSum
      ensures out == Output(gains, old(dSum), inRef - inMeas)
      ensures dSum == Next(gains, old(dSum), inRef - inMeas)
      ensures gains.outMin <= gains.outMax ==> gains.outMin <= out <= gains.outMax
      // between the limits nothing is cut off; beyond one of them the output is that limit, and the integrator is moved
      // back by kc times the rest
      ensures var raw, sum := old(dSum) + gains.kp * (inRef - inMeas), old(dSum) + gains.ki * (inRef - inMeas);
        && (gains.outMin <= raw <= gains.outMax ==> out == raw && dSum == sum)
        && (raw > gains.outMax ==> out == gains.outMax && dSum == sum - gains.kc * (raw - gains.outMax))
        && (raw < gains.outMin && raw <= gains.outMax ==>
              out == gains.outMin && dSum == sum - gains.kc * (raw - gains.outMin))
    {
      var err := inRef - inMeas;
      var raw := dSum + gains.kp * err;
      if raw > gains.outMax {
        out := gains.outMax;
      } else if raw < gains.outMin {
        out := gains.outMin;
      } else {
        out := raw;
      }
      var exc := raw - out;
      NextIs(gains, dSum, err, exc);
      dSum := dSum + gains.ki * err - gains.kc * exc;
    }

    /** mc_reset_controller. */
    method Reset()
      modifies this`out, this`dSum
      ensures dSum == 0.0 && out == 0.0
    {
      dSum, out := 0.0, 0.0;
    }
  }

  // ----- whole runs -----

  function Run(g: Gains, sum: real, errs: seq<real>): real
    decreases |errs|
  {
    if errs == [] then sum else Run(g, Next(g, sum, errs[0]), errs[1..])
  }

  ghost predicate Within(errs: seq<real>, e: real)
  {
    forall i :: 0 <= i < |errs| ==> Abs(errs[i]) <= e
  }

  /** Limits of at most `m`, and gains as they are used, with anti-windup on. */
  ghost predicate Guarded(g: Gains, m: real)
  {
    -m <= g.outMin <= g.outMax <= m && g.kp >= 0.0 && g.ki >= 0.0 && 0.0 < g.kc <= 1.0
  }

  /** The integrator's bound for errors up to `e`. */
  function Bound(g: Gains, m: real, e: real): real
    requires g.kc > 0.0
  {
    m + (g.kp + g.ki / g.kc) * e
  }

  /** Limited from above by `hi`, with every product a quantity of its own: `a`, `pk`, `hk`, `mk`, `bk`, `pek` are kc
      times the sum, the error's share, the limit, the largest limit, the bound and the share's bound; `cut` is kc times
      what was cut off. */
  lemma OneSideLinear(sum: real, p: real, i: real, hi: real, m: real, pe: real, ie: real, ce: real, b: real,
                      a: real, pk: real, hk: real, mk: real, bk: real, pek: real, cut: real)
    requires Abs(hi) <= m && Abs(hk) <= mk && Abs(p) <= pe && Abs(i) <= ie && ie <= ce && b == m + pe + ce
    requires cut == a + pk - hk && bk == mk + pek + ie && Abs(pk) <= pek
    requires sum - a <= b - bk         // (1 - kc) sum <= (1 - kc) b
    requires cut <= sum + p - hi       // kc <= 1
    ensures Abs(sum + i - cut) <= b
  {
  }

  // ----- products, kept out of the linear steps -----

  function Times(k: real, x: real): real { k * x }

  lemma TimesNotMore(k: real, x: real)
    requires k <= 1.0 && x >= 0.0
    ensures Times(k, x) <= x
  {
    NonNegative(1.0 - k, x);
    assert (1.0 - k) * x == x - k * x;
  }

  lemma TimesMinus(k: real, x: real, y: real)
    ensures Times(k, x - y) == Times(k, x) - Times(k, y)
  {
  }

  lemma TimesPlus(k: real, x: real, y: real)
    ensures Times(k, x + y) == Times(k, x) + Times(k, y)
  {
  }

  lemma TimesOpposite(k: real, x: real)
    ensures Times(k, -x) == -Times(k, x) && Times(k, 0.0) == 0.0
  {
  }

  lemma TimesAbs(k: real, x: real, e: real)
    requires k >= 0.0 && Abs(x) <= e
    ensures Abs(Times(k, x)) <= Times(k, e)
  {
    AbsProduct(k, x, e);
  }

  // ----- one period -----

  /** Limited from above: the new sum is a mean of the old one and the limit, give or take the error's share. */
  lemma OneSide(sum: real, p: real, i: real, kc: real, hi: real, m: real, pe: real, ie: real, ce: real, b: real, cut: real)
    requires 0.0 < kc <= 1.0 && Abs(hi) <= m && Abs(p) <= pe && Abs(i) <= ie && ie <= ce && b == m + pe + ce
    requires ie == Times(kc, ce) && sum <= b && sum + p > hi && cut == Times(kc, sum + p - hi)
    ensures Abs(sum + i - cut) <= b
  {
    hide Times;
    TimesNotMore(kc, sum + p - hi);
    TimesNotMore(kc, b - sum);
    TimesMinus(kc, b, sum);
    TimesPlus(kc, m + pe, ce);
    TimesPlus(kc, m, pe);
    TimesMinus(kc, sum + p, hi);
    TimesPlus(kc, sum, p);
    TimesAbs(kc, p, pe);
    TimesAbs(kc, hi, m);
    OneSideLinear(sum, p, i, hi, m, pe, ie, ce, b, Times(kc, sum), Times(kc, p), Times(kc, hi), Times(kc, m), Times(kc, b),
                  Times(kc, pe), cut);
  }

  /** `p` and `i` are what the error contributes through kp and ki, `pe` and `ie` the most they can be, and `ce` is
      ie / kc. */
  lemma StepBound(sum: real, p: real, i: real, kc: real, lo: real, hi: real, m: real, pe: real, ie: real, ce: real, b: real,
                  exc: real, cut: real)
    requires 0.0 < kc <= 1.0 && -m <= lo <= hi <= m && Abs(p) <= pe && Abs(i) <= ie && ie <= ce && b == m + pe + ce
    requires ie == Times(kc, ce) && Abs(sum) <= b && exc == sum + p - Clamp(sum + p, lo, hi) && cut == Times(kc, exc)
    ensures Abs(sum + i - cut) <= b
  {
    hide Times;
    TimesOpposite(kc, exc);
    if sum + p > hi {
      OneSide(sum, p, i, kc, hi, m, pe, ie, ce, b, cut);
    } else if sum + p < lo {
      assert -sum + -p - -lo == -exc;
      OneSide(-sum, -p, -i, kc, -lo, m, pe, ie, ce, b, -cut);
    } else {
      assert exc == 0.0 && cut == 0.0;
    }
  }

  lemma Quotient(ki: real, kc: real, e: real)
    requires ki >= 0.0 && 0.0 < kc <= 1.0 && e >= 0.0
    ensures Times(ki, e) == Times(kc, Times(ki / kc, e)) && Times(ki, e) <= Times(ki / kc, e)
  {
    var r := ki / kc;
    assert r * kc == ki;
    assert r >= 0.0 by { if r < 0.0 { NonNegative(-r, kc); } }
    assert ki * e == kc * (r * e);
    NonNegative(r, e);
    TimesNotMore(kc, r * e);
  }

  lemma BoundParts(g: Gains, m: real, e: real)
    requires g.kc > 0.0
    ensures Bound(g, m, e) == m + Times(g.kp, e) + Times(g.ki / g.kc, e)
  {
    var r := g.ki / g.kc;
    assert (g.kp + r) * e == g.kp * e + r * e;
  }

  /** The integrator's share of the bound. */
  lemma BoundShare(g: Gains, m: real, e: real) returns (ie: real, ce: real)
    requires Guarded(g, m) && e >= 0.0
    ensures ie == Times(g.ki, e) && ie <= ce && ie == Times(g.kc, ce) && Bound(g, m, e) == m + Times(g.kp, e) + ce
  {
    BoundParts(g, m, e);
    hide Bound;
    Quotient(g.ki, g.kc, e);
    ie, ce := Times(g.ki, e), Times(g.ki / g.kc, e);
  }

  /** What was cut off, and its feedback. */
  lemma CutParts(g: Gains, sum: real, err: real) returns (exc: real, cut: real)
    ensures exc == sum + Times(g.kp, err) - Clamp(sum + Times(g.kp, err), g.outMin, g.outMax)
    ensures cut == Times(g.kc, exc) && Next(g, sum, err) == sum + Times(g.ki, err) - cut
  {
    exc := Raw(g, sum, err) - Output(g, sum, err);
    cut := Times(g.kc, exc);
    NextIs(g, sum, err, exc);
  }

  lemma NextBounded(g: Gains, m: real, e: real, sum: real, err: real)
    requires Guarded(g, m) && e >= 0.0 && Abs(err) <= e && Abs(sum) <= Bound(g, m, e)
    ensures Abs(Next(g, sum, err)) <= Bound(g, m, e)
  {
    hide Next, Bound, Clamp, Times;
    TimesAbs(g.kp, err, e);
    TimesAbs(g.ki, err, e);
    var ie, ce := BoundShare(g, m, e);
    var exc, cut := CutParts(g, sum, err);
    StepBound(sum, Times(g.kp, err), Times(g.ki, err), g.kc, g.outMin, g.outMax, m, Times(g.kp, e), ie, ce, Bound(g, m, e),
              exc, cut);
  }

  /** With anti-windup on, no run of errors up to `e` drives the integrator out of its bound, and no output leaves the
      limits. */
  lemma {:induction false} IntegratorBounded(g: Gains, m: real, e: real, sum: real, errs: seq<real>)
    requires Guarded(g, m) && e >= 0.0 && Within(errs, e) && Abs(sum) <= Bound(g, m, e)
    ensures Abs(Run(g, sum, errs)) <= Bound(g, m, e)
    ensures forall err :: Abs(Output(g, Run(g, sum, errs), err)) <= m
    decreases |errs|
  {
    if errs != [] {
      NextBounded(g, m, e, sum, errs[0]);
      var rest := errs[1..];
      forall i | 0 <= i < |rest| ensures Abs(rest[i]) <= e { assert rest[i] == errs[i + 1]; }
      IntegratorBounded(g, m, e, Next(g, sum, errs[0]), rest);
    }
  }

  // ----- without anti-windup -----

  function Constant(e: real, n: nat): seq<real>
  {
    if n == 0 then [] else [e] + Constant(e, n - 1)
  }

  /** With kc = 0 the limiter has no say: a constant error adds up for ever. */
  lemma {:induction false} WindsUp(g: Gains, sum: real, e: real, step: real, n: nat)
    requires g.kc == 0.0 && step == g.ki * e
    ensures Run(g, sum, Constant(e, n)) == sum + n as real * step
    ensures |Constant(e, n)| == n && (e >= 0.0 ==> Within(Constant(e, n), e))
    decreases n
  {
    if n > 0 {
      var rest := Constant(e, n - 1);
      assert Constant(e, n)[0] == e && Constant(e, n)[1..] == rest;
      NoFeedback(g, sum, e, step);
      hide Next;
      WindsUp(g, sum + step, e, step, n - 1);
      OneMore(sum, n, step);
    }
  }

  lemma NoFeedback(g: Gains, sum: real, e: real, step: real)
    requires g.kc == 0.0 && step == g.ki * e
    ensures Next(g, sum, e) == sum + step
  {
  }

  lemma OneMore(sum: real, n: nat, step: real)
    requires n > 0
    ensures sum + step + (n - 1) as real * step == sum + n as real * step
  {
    assert (n - 1) as real == n as real - 1.0;
  }

  ghost predicate StaysBelow(g: Gains, e: real, b: real)
  {
    forall errs :: Within(errs, e) ==> Abs(Run(g, 0.0, errs)) <= b
  }

  lemma Archimedes(step: real, b: real) returns (n: nat)
    requires step > 0.0
    ensures n as real * step > b
  {
    var q := b / step;
    assert q * step == b;
    n := AtLeast(q);
    Beyond(n as real, q, step, b);
  }

  lemma AtLeast(q: real) returns (n: nat)
    ensures n as real > q
  {
    n := if q < 0.0 then 1 else q.Floor + 1;
  }

  lemma Beyond(n: real, q: real, step: real, b: real)
    requires step > 0.0 && n > q && q * step == b
    ensures n * step > b
  {
    Positive(step, n - q);
    Distributes(step, n, q);
  }

  /** Whether the integrator is bounded at all, started from reset, whatever the limits: exactly when anti-windup is on. */
  lemma BoundedIffAntiWindup(g: Gains, e: real)
    requires g.outMin <= g.outMax && g.kp >= 0.0 && g.ki > 0.0 && 0.0 <= g.kc <= 1.0 && e > 0.0
    ensures (exists b: real :: StaysBelow(g, e, b)) <==> g.kc > 0.0
  {
    if g.kc > 0.0 {
      var m := Max(Abs(g.outMin), Abs(g.outMax));
      var b := Bound(g, m, e);
      BoundNonNegative(g, m, e);
      forall errs | Within(errs, e) ensures Abs(Run(g, 0.0, errs)) <= b { IntegratorBounded(g, m, e, 0.0, errs); }
      assert StaysBelow(g, e, b);
    } else {
      forall b: real ensures !StaysBelow(g, e, b) { NoBound(g, e, b); }
    }
  }

  lemma BoundNonNegative(g: Gains, m: real, e: real)
    requires Guarded(g, m) && e >= 0.0
    ensures Bound(g, m, e) >= 0.0
  {
    BoundParts(g, m, e);
    NonNegative(g.kp, e);
    Quotient(g.ki, g.kc, e);
    NonNegative(g.ki, e);
  }

  lemma NoBound(g: Gains, e: real, b: real)
    requires g.kc == 0.0 && g.ki > 0.0 && e > 0.0
    ensures !StaysBelow(g, e, b)
  {
    assert g.ki * e > 0.0;
    var n := Archimedes(g.ki * e, b);
    WindsUp(g, 0.0, e, g.ki * e, n);
    assert Within(Constant(e, n), e);
  }

  /** The current controllers as configured: their KC is 0 * 0.5. */
  const AXIS_GAINS := Gains(0.2, 0.0002, 0.0, 0.98, -0.98)

  lemma AxisControllersUnbounded(e: real)
    requires e > 0.0
    ensures !exists b: real :: StaysBelow(AXIS_GAINS, e, b)
  {
    BoundedIffAntiWindup(AXIS_GAINS, e);
  }
}
