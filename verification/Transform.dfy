/** The angle functions of mc_transform.c: table-driven sine and cosine, and the inverse Park transform. */
module Transform {
  import opened RealFacts
  import opened Svpwm

  const TABLE_SIZE := 256
  const TURN: real := 6.28318530717958647692    // TOTAL_SINE_TABLE_ANGLE
  const STEP: real := TURN / 256.0              // ANGLE_STEP

  // ----- the tables -----

  /** The first quarter of sine_table.  The other entries of both tables repeat these values. */
  function Quarter(k: nat): real
  {
    match k
    case 0 => 0.000000 case 1 => 0.024541 case 2 => 0.049068 case 3 => 0.073565
    case 4 => 0.098017 case 5 => 0.122411 case 6 => 0.146730 case 7 => 0.170962
    case 8 => 0.195090 case 9 => 0.219101 case 10 => 0.242980 case 11 => 0.266713
    case 12 => 0.290285 case 13 => 0.313682 case 14 => 0.336890 case 15 => 0.359895
    case 16 => 0.382683 case 17 => 0.405241 case 18 => 0.427555 case 19 => 0.449611
    case 20 => 0.471397 case 21 => 0.492898 case 22 => 0.514103 case 23 => 0.534998
    case 24 => 0.555570 case 25 => 0.575808 case 26 => 0.595699 case 27 => 0.615232
    case 28 => 0.634393 case 29 => 0.653173 case 30 => 0.671559 case 31 => 0.689541
    case 32 => 0.707107 case 33 => 0.724247 case 34 => 0.740951 case 35 => 0.757209
    case 36 => 0.773010 case 37 => 0.788346 case 38 => 0.803208 case 39 => 0.817585
    case 40 => 0.831470 case 41 => 0.844854 case 42 => 0.857729 case 43 => 0.870087
    case 44 => 0.881921 case 45 => 0.893224 case 46 => 0.903989 case 47 => 0.914210
    case 48 => 0.923880 case 49 => 0.932993 case 50 => 0.941544 case 51 => 0.949528
    case 52 => 0.956940 case 53 => 0.963776 case 54 => 0.970031 case 55 => 0.975702
    case 56 => 0.980785 case 57 => 0.985278 case 58 => 0.989177 case 59 => 0.992480
    case 60 => 0.995185 case 61 => 0.997290 case 62 => 0.998795 case 63 => 0.999699
    case _ => 1.000000
  }

  /** sine_table[i]; entry 256 stands for entry 0. */
  function Sine(i: nat): real
    requires i <= TABLE_SIZE
  {
    if i <= 64 then Quarter(i)
    else if i <= 128 then Quarter(128 - i)
    else if i <= 192 then -Quarter(i - 128)
    else -Quarter(256 - i)
  }

  /** cosine_table[i]. */
  function Cosine(i: nat): real
    requires i <= TABLE_SIZE
  {
    if i <= 64 then Quarter(64 - i)
    else if i <= 128 then -Quarter(i - 64)
    else if i <= 192 then -Quarter(192 - i)
    else Quarter(i - 192)
  }

  ghost predicate NearlyUnit(a: real, b: real)
  {
    1.0 - 0.0000011 <= a * a + b * b <= 1.0 + 0.0000012
  }

  lemma QuarterNorm(k: nat)
    requires k <= 64
    ensures NearlyUnit(Quarter(k), Quarter(64 - k)) && NearlyUnit(Quarter(64 - k), Quarter(k))
  {
    if k > 32 { LowNorm(64 - k); } else { LowNorm(k); }
  }

  lemma LowNorm(k: nat)
    requires k <= 32
    ensures NearlyUnit(Quarter(k), Quarter(64 - k)) && NearlyUnit(Quarter(64 - k), Quarter(k))
  {
    match k
    case 0 => case 1 => case 2 => case 3 => case 4 => case 5 => case 6 => case 7 => case 8 => case 9 => case 10 =>
    case 11 => case 12 => case 13 => case 14 => case 15 => case 16 => case 17 => case 18 => case 19 => case 20 =>
    case 21 => case 22 => case 23 => case 24 => case 25 => case 26 => case 27 => case 28 => case 29 => case 30 =>
    case 31 =>
    case _ =>
  }

  const LARGEST_STEP := 0.024541

  lemma QuarterStep(k: nat)
    requires k < 64
    ensures 0.0 <= Quarter(k + 1) - Quarter(k) <= LARGEST_STEP
  {
    match k
    case 0 => case 1 => case 2 => case 3 => case 4 => case 5 => case 6 => case 7 => case 8 => case 9 => case 10 =>
    case 11 => case 12 => case 13 => case 14 => case 15 => case 16 => case 17 => case 18 => case 19 => case 20 =>
    case 21 => case 22 => case 23 => case 24 => case 25 => case 26 => case 27 => case 28 => case 29 => case 30 =>
    case 31 => case 32 => case 33 => case 34 => case 35 => case 36 => case 37 => case 38 => case 39 => case 40 =>
    case 41 => case 42 => case 43 => case 44 => case 45 => case 46 => case 47 => case 48 => case 49 => case 50 =>
    case 51 => case 52 => case 53 => case 54 => case 55 => case 56 => case 57 => case 58 => case 59 => case 60 =>
    case 61 => case 62 =>
    case _ =>
  }

  /** (s1, c1) is (s, c) turned on by one table step, whose sine is 0.024541 and whose cosine 0.999699. */
  ghost predicate NearlyTurned(s: real, c: real, s1: real, c1: real)
  {
    && Abs(s1 - (s * 0.999699 + c * 0.024541)) <= 0.0000015
    && Abs(c1 - (c * 0.999699 - s * 0.024541)) <= 0.0000015
  }

  /** What a turn by one table step does to the first quarter's values. */
  lemma QuarterTurns(k: nat)
    requires k < 64
    ensures NearlyTurned(Quarter(k), Quarter(64 - k), Quarter(k + 1), Quarter(63 - k))
  {
    if k < 32 { LowTurns(k); } else { HighTurns(k); }
  }

  lemma LowTurns(k: nat)
    requires k < 32
    ensures NearlyTurned(Quarter(k), Quarter(64 - k), Quarter(k + 1), Quarter(63 - k))
  {
    match k
    case 0 => case 1 => case 2 => case 3 => case 4 => case 5 => case 6 => case 7 => case 8 => case 9 => case 10 =>
    case 11 => case 12 => case 13 => case 14 => case 15 => case 16 => case 17 => case 18 => case 19 => case 20 =>
    case 21 => case 22 => case 23 => case 24 => case 25 => case 26 => case 27 => case 28 => case 29 => case 30 =>
    case _ =>
  }

  lemma HighTurns(k: nat)
    requires 32 <= k < 64
    ensures NearlyTurned(Quarter(k), Quarter(64 - k), Quarter(k + 1), Quarter(63 - k))
  {
    match k
    case 32 => case 33 => case 34 => case 35 => case 36 => case 37 => case 38 => case 39 => case 40 => case 41 =>
    case 42 => case 43 => case 44 => case 45 => case 46 => case 47 => case 48 => case 49 => case 50 => case 51 =>
    case 52 => case 53 => case 54 => case 55 => case 56 => case 57 => case 58 => case 59 => case 60 => case 61 =>
    case 62 =>
    case _ =>
  }

  /** The same a quarter turn ahead. */
  lemma TurnedAhead(s: real, c: real, s1: real, c1: real)
    requires NearlyTurned(s, c, s1, c1)
    ensures NearlyTurned(c, -s, c1, -s1)
  {
  }

  lemma AllQuarters(s: real, c: real, s1: real, c1: real)
    requires NearlyTurned(s, c, s1, c1)
    ensures NearlyTurned(c, -s, c1, -s1) && NearlyTurned(-s, -c, -s1, -c1) && NearlyTurned(-c, s, -c1, s1)
  {
    hide NearlyTurned;
    TurnedAhead(s, c, s1, c1);
    TurnedAhead(c, -s, c1, -s1);
    TurnedAhead(-s, -c, -s1, -c1);
  }

  /** The tables by quarters. */
  lemma ByQuarter(q: nat, k: nat)
    requires q < 4 && k <= 64
    ensures q == 0 ==> Sine(k) == Quarter(k) && Cosine(k) == Quarter(64 - k)
    ensures q == 1 ==> Sine(64 + k) == Quarter(64 - k) && Cosine(64 + k) == -Quarter(k)
    ensures q == 2 ==> Sine(128 + k) == -Quarter(k) && Cosine(128 + k) == -Quarter(64 - k)
    ensures q == 3 ==> Sine(192 + k) == -Quarter(64 - k) && Cosine(192 + k) == Quarter(k)
  {
    assert Quarter(0) == 0.0;
    hide Quarter;
  }

  lemma StepTurns(i: nat)
    requires i < TABLE_SIZE
    ensures NearlyTurned(Sine(i), Cosine(i), Sine(i + 1), Cosine(i + 1))
  {
    hide Quarter, NearlyTurned, Sine, Cosine;
    var q, k := i / 64, i % 64;
    QuarterTurns(k);
    AllQuarters(Quarter(k), Quarter(64 - k), Quarter(k + 1), Quarter(63 - k));
    ByQuarter(q, k);
    ByQuarter(q, k + 1);
  }

  /** The tables turn evenly: they start at angle 0, and each entry is the one before it, turned forwards by one step, to
      1.5 millionths. */
  lemma TablesTurn(i: nat)
    requires i < TABLE_SIZE
    ensures Sine(0) == 0.0 && Cosine(0) == 1.0
    ensures Abs(Sine(i + 1) - (Sine(i) * 0.999699 + Cosine(i) * 0.024541)) <= 0.0000015
    ensures Abs(Cosine(i + 1) - (Cosine(i) * 0.999699 - Sine(i) * 0.024541)) <= 0.0000015
  {
    assert Sine(0) == 0.0 && Cosine(0) == 1.0;
    hide Sine, Cosine, Quarter;
    StepTurns(i);
  }

  /** Every table entry lies on the unit circle, to 1.2 millionths. */
  lemma EntryNorm(i: nat)
    requires i <= TABLE_SIZE
    ensures NearlyUnit(Sine(i), Cosine(i))
  {
    hide Quarter;
    if i <= 64 { QuarterNorm(i); }
    else if i <= 128 { QuarterNorm(128 - i); }
    else if i <= 192 { QuarterNorm(i - 128); }
    else { QuarterNorm(256 - i); }
  }

  lemma EntryStep(i: nat)
    requires i < TABLE_SIZE
    ensures Abs(Sine(i + 1) - Sine(i)) <= LARGEST_STEP && Abs(Cosine(i + 1) - Cosine(i)) <= LARGEST_STEP
  {
    assert Quarter(0) == 0.0;
    hide Quarter;
    if i < 64 { BothSteps(i); }
    else if i < 128 { BothSteps(i - 64); }
    else if i < 192 { BothSteps(i - 128); }
    else { BothSteps(i - 192); }
  }

  lemma BothSteps(k: nat)
    requires k < 64
    ensures 0.0 <= Quarter(k + 1) - Quarter(k) <= LARGEST_STEP
    ensures 0.0 <= Quarter(64 - k) - Quarter(63 - k) <= LARGEST_STEP
  {
    hide Quarter;
    QuarterStep(k);
    QuarterStep(63 - k);
  }

  // ----- interpolation, with the angle measured in steps -----

  function Mix(y0: real, y1: real, t: real): real
  {
    y0 + (y1 - y0) * t
  }

  ghost predicate OnDial(x: real)
  {
    0.0 <= x < 256.0
  }

  /** Where the cast finds an index of the tables: on the dial, and up to one step before it. */
  ghost predicate Indexed(x: real)
  {
    -1.0 < x < 256.0
  }

  function SineAt(x: real): real
    requires Indexed(x)
  {
    var i := Truncate(x); Mix(Sine(i), Sine(i + 1), x - i as real)
  }

  function CosineAt(x: real): real
    requires Indexed(x)
  {
    var i := Truncate(x); Mix(Cosine(i), Cosine(i + 1), x - i as real)
  }

  ghost predicate LongPair(s: real, c: real)
  {
    1.0 < s * s + c * c < 1.0013
  }

  /** Before the dial the first interval is carried on backwards, and the pair is a little too long. */
  lemma Extrapolated(x: real)
    requires -1.0 < x < 0.0
    ensures LongPair(SineAt(x), CosineAt(x))
  {
    assert SineAt(x) == 0.024541 * x && CosineAt(x) == 1.0 - 0.000301 * x by {
      assert Truncate(x) == 0;
    }
    hide SineAt, CosineAt;
    LengthBefore(-x, SineAt(x), CosineAt(x), 0.024541, 0.000301);
  }

  lemma LengthBefore(u: real, sin: real, cos: real, k: real, j: real)
    requires 0.0 < u < 1.0 && sin == -(k * u) && cos == 1.0 + j * u && k == 0.024541 && j == 0.000301
    ensures LongPair(sin, cos)
  {
    assert sin * sin == (k * k) * (u * u);
    assert cos * cos == 1.0 + 2.0 * (j * u) + (j * j) * (u * u);
    Positive(u, u);
    SmallerFactor(u, 1.0, u);
  }

  /** A point of a chord: between the squares of its ends, less what the chord cuts off. */
  lemma ChordNorm(s0: real, c0: real, s1: real, c1: real, t: real)
    ensures SquaredLength(Mix(s0, s1, t), Mix(c0, c1, t)) ==
            (1.0 - t) * SquaredLength(s0, c0) + t * SquaredLength(s1, c1)
            - t * (1.0 - t) * SquaredLength(s1 - s0, c1 - c0)
  {
    hide Mix, Sq, SquaredLength;
    MixSquare(s0, s1, t);
    MixSquare(c0, c1, t);
    LengthIs(s0, c0);
    LengthIs(s1, c1);
    LengthIs(s1 - s0, c1 - c0);
    LengthIs(Mix(s0, s1, t), Mix(c0, c1, t));
    SumUp(t, Sq(s0), Sq(c0), Sq(s1), Sq(c1), Sq(s1 - s0), Sq(c1 - c0));
  }

  lemma SumUp(t: real, a: real, a': real, b: real, b': real, p: real, p': real)
    ensures ((1.0 - t) * a + t * b - t * (1.0 - t) * p) + ((1.0 - t) * a' + t * b' - t * (1.0 - t) * p')
            == (1.0 - t) * (a + a') + t * (b + b') - t * (1.0 - t) * (p + p')
  {
    var w := t * (1.0 - t);
    assert w * p + w * p' == w * (p + p');
  }

  function Sq(x: real): real { x * x }

  lemma LengthIs(s: real, c: real)
    ensures SquaredLength(s, c) == Sq(s) + Sq(c)
  {
  }

  lemma MixSquare(a: real, b: real, t: real)
    ensures Sq(Mix(a, b, t)) == (1.0 - t) * Sq(a) + t * Sq(b) - t * (1.0 - t) * Sq(b - a)
  {
  }

  lemma Square(x: real, m: real)
    requires Abs(x) <= m
    ensures 0.0 <= x * x <= m * m
  {
    if x >= 0.0 { Product(x, m); } else { Product(-x, m); }
  }

  lemma Product(x: real, m: real)
    requires 0.0 <= x <= m
    ensures 0.0 <= x * x <= m * m
  {
    assert x * x <= x * m by { assert x * (m - x) >= 0.0; }
    assert x * m <= m * m by { assert (m - x) * m >= 0.0; }
  }

  lemma Weight(t: real)
    requires 0.0 <= t <= 1.0
    ensures 0.0 <= t * (1.0 - t) <= 0.25
  {
    NonNegative(t, 1.0 - t);
    assert (t - 0.5) * (t - 0.5) == 0.25 - t * (1.0 - t);
    if t >= 0.5 { NonNegative(t - 0.5, t - 0.5); } else { NonNegative(0.5 - t, 0.5 - t); }
  }

  /** The bounds of a weighted mean less a small part. */
  lemma Between(n0: real, n1: real, d: real, t: real, n: real)
    requires 0.0 <= t <= 1.0 && 0.9999989 <= n0 <= 1.0000012 && 0.9999989 <= n1 <= 1.0000012 && 0.0 <= d <= 0.0013
    requires n == (1.0 - t) * n0 + t * n1 - t * (1.0 - t) * d
    ensures 0.9996 <= n <= 1.0000012
  {
    var w := t * (1.0 - t);
    Weight(t);
    Mean(n0, n1, t, 0.9999989, 1.0000012);
    NonNegative(w, d);
    SmallerFactor(w, 0.25, d);
    LessPart((1.0 - t) * n0 + t * n1, w * d, d, n);
  }

  lemma LessPart(mean: real, part: real, d: real, n: real)
    requires 0.9999989 <= mean <= 1.0000012 && 0.0 <= part <= 0.25 * d && d <= 0.0013 && n == mean - part
    ensures 0.9996 <= n <= 1.0000012
  {
  }

  ghost predicate UnitPair(s: real, c: real)
  {
    0.9996 <= s * s + c * c <= 1.0000012
  }

  lemma Mean(a: real, b: real, t: real, lo: real, hi: real)
    requires 0.0 <= t <= 1.0 && lo <= a <= hi && lo <= b <= hi
    ensures lo <= (1.0 - t) * a + t * b <= hi
  {
    NonNegative(1.0 - t, a - lo);
    NonNegative(t, b - lo);
    NonNegative(1.0 - t, hi - a);
    NonNegative(t, hi - b);
  }

  lemma ChordWidth(ds: real, dc: real)
    requires Abs(ds) <= LARGEST_STEP && Abs(dc) <= LARGEST_STEP
    ensures 0.0 <= SquaredLength(ds, dc) <= 0.0013
  {
    Square(ds, LARGEST_STEP);
    Square(dc, LARGEST_STEP);
  }

  ghost predicate OnChord(s0: real, c0: real, s1: real, c1: real, t: real, s: real, c: real)
  {
    s == Mix(s0, s1, t) && c == Mix(c0, c1, t)
  }

  lemma ChordBetween(s0: real, c0: real, s1: real, c1: real, t: real, s: real, c: real)
    requires NearlyUnit(s0, c0) && NearlyUnit(s1, c1) && 0.0 <= t <= 1.0
    requires Abs(s1 - s0) <= LARGEST_STEP && Abs(c1 - c0) <= LARGEST_STEP
    requires OnChord(s0, c0, s1, c1, t, s, c)
    ensures UnitPair(s, c)
  {
    hide Mix, SquaredLength, UnitPair, NearlyUnit, Abs;
    NearlyUnitLength(s0, c0);
    NearlyUnitLength(s1, c1);
    ChordWidth(s1 - s0, c1 - c0);
    ChordNorm(s0, c0, s1, c1, t);
    MixedNorm(SquaredLength(s0, c0), SquaredLength(s1, c1), SquaredLength(s1 - s0, c1 - c0), t, s, c);
  }

  lemma NearlyUnitLength(s: real, c: real)
    requires NearlyUnit(s, c)
    ensures 0.9999989 <= SquaredLength(s, c) <= 1.0000012
  {
  }

  lemma MixedNorm(n0: real, n1: real, d: real, t: real, s: real, c: real)
    requires 0.0 <= t <= 1.0 && 0.9999989 <= n0 <= 1.0000012 && 0.9999989 <= n1 <= 1.0000012 && 0.0 <= d <= 0.0013
    requires SquaredLength(s, c) == (1.0 - t) * n0 + t * n1 - t * (1.0 - t) * d
    ensures UnitPair(s, c)
  {
    Between(n0, n1, d, t, SquaredLength(s, c));
  }

  function SquaredLength(sin: real, cos: real): real { sin * sin + cos * cos }

  /** The interpolated pair is never longer than 1 + 1.2 millionths, and never shorter than 0.9996 (squared). */
  lemma NormAt(x: real)
    requires OnDial(x)
    ensures UnitPair(SineAt(x), CosineAt(x))
  {
    hide Quarter, Sine, Cosine, UnitPair, NearlyUnit;
    var i := x.Floor;
    EntryNorm(i);
    EntryNorm(i + 1);
    EntryStep(i);
    ChordBetween(Sine(i), Cosine(i), Sine(i + 1), Cosine(i + 1), x - i as real, SineAt(x), CosineAt(x));
  }

  // ----- shape -----

  lemma TablesClose()
    ensures Sine(0) == Sine(TABLE_SIZE) && Cosine(0) == Cosine(TABLE_SIZE)
  {
  }

  lemma EntrySymmetry(i: nat)
    requires i <= TABLE_SIZE
    ensures Sine(256 - i) == -Sine(i) && Cosine(256 - i) == Cosine(i)
  {
    assert Quarter(0) == 0.0;
    hide Quarter;
  }

  lemma EntryShift(i: nat)
    requires i <= TABLE_SIZE
    ensures i <= 192 ==> Sine(i + 64) == Cosine(i)
    ensures i >= 192 ==> Sine(i - 192) == Cosine(i)
  {
    assert Quarter(0) == 0.0;
    hide Quarter;
  }

  /** A quarter turn ahead, the sine is the cosine. */
  lemma QuarterTurn(x: real)
    requires OnDial(x)
    ensures SineAt(if x < 192.0 then x + 64.0 else x - 192.0) == CosineAt(x)
  {
    hide Quarter, Sine, Cosine;
    var i := x.Floor;
    EntryShift(i);
    EntryShift(i + 1);
    if x < 192.0 {
      assert (x + 64.0).Floor == i + 64;
    } else {
      assert (x - 192.0).Floor == i - 192;
    }
  }

  /** The sine is odd and the cosine even. */
  lemma Reversal(x: real)
    requires 0.0 < x < 256.0
    ensures SineAt(256.0 - x) == -SineAt(x) && CosineAt(256.0 - x) == CosineAt(x)
  {
    hide Quarter, Sine, Cosine, Mix;
    var i := x.Floor;
    var t := x - i as real;
    EntrySymmetry(i);
    if t == 0.0 {
      assert (256.0 - x).Floor == 256 - i;
      AtEntry(i, x);
      AtEntry(256 - i, 256.0 - x);
    } else {
      assert (256.0 - x).Floor == 255 - i;
      EntrySymmetry(i + 1);
      assert 256.0 - x - (255 - i) as real == 1.0 - t;
      MixBackwards(Sine(i), Sine(i + 1), t);
      MixBackwards(Cosine(i), Cosine(i + 1), t);
      MixOpposite(Sine(i + 1), Sine(i), 1.0 - t);
    }
  }

  lemma MixBackwards(a: real, b: real, t: real)
    ensures Mix(b, a, 1.0 - t) == Mix(a, b, t)
  {
  }

  lemma MixOpposite(a: real, b: real, t: real)
    ensures Mix(-a, -b, t) == -Mix(a, b, t)
  {
  }

  /** On a table entry there is nothing to interpolate. */
  lemma AtEntry(i: nat, x: real)
    requires i < TABLE_SIZE && x == i as real
    ensures SineAt(x) == Sine(i) && CosineAt(x) == Cosine(i)
  {
    hide Quarter, Sine, Cosine;
    MixEnds(Sine(i), Sine(i + 1));
    MixEnds(Cosine(i), Cosine(i + 1));
  }

  ghost predicate Slowly(a: real, b: real, e: real)
  {
    Abs(b - a) <= LARGEST_STEP * e
  }

  lemma SegmentMoves(y0: real, y1: real, t: real, u: real, e: real, a: real, b: real)
    requires Abs(y1 - y0) <= LARGEST_STEP && t <= u && e == u - t && a == Mix(y0, y1, t) && b == Mix(y0, y1, u)
    ensures Slowly(a, b, e)
  {
    AbsProduct(e, y1 - y0, LARGEST_STEP);
    assert b - a == e * (y1 - y0);
  }

  ghost predicate MovesLittle(x: real, y: real, e: real)
    requires OnDial(x) && OnDial(y)
  {
    Slowly(SineAt(x), SineAt(y), e) && Slowly(CosineAt(x), CosineAt(y), e)
  }

  /** How far to turn forwards from x to y. */
  function Ahead(x: real, y: real): real
  {
    if x <= y then y - x else y + 256.0 - x
  }

  /** Turning forwards from anywhere to anywhere, across table intervals and past the end of the table, neither function
      moves faster than its largest table step. */
  lemma NoFasterThanTable(x: real, y: real)
    requires OnDial(x) && OnDial(y)
    ensures MovesLittle(x, y, Ahead(x, y))
  {
    hide MovesLittle;
    if x <= y {
      Forwards(x, y);
    } else {
      ToTheTop(x);
      Forwards(0.0, y);
      Chain(x, 0.0, y, 256.0 - x, y);
    }
  }

  lemma {:induction false} Forwards(x: real, y: real)
    requires 0.0 <= x <= y < 256.0
    ensures MovesLittle(x, y, y - x)
    decreases y.Floor - x.Floor
  {
    hide MovesLittle;
    var i := x.Floor;
    if y.Floor == i {
      InOneInterval(x, y, i);
    } else {
      var z := (i + 1) as real;
      ToTheNext(x, z, i);
      Forwards(z, y);
      Chain(x, z, y, z - x, y - z);
    }
  }

  lemma InInterval(x: real, i: nat)
    requires OnDial(x) && x.Floor == i
    ensures SineAt(x) == Mix(Sine(i), Sine(i + 1), x - i as real)
    ensures CosineAt(x) == Mix(Cosine(i), Cosine(i + 1), x - i as real)
  {
    hide Sine, Cosine, Mix;
  }

  lemma Piece(x: real, z: real, s0: real, s1: real, c0: real, c1: real, t: real, u: real, e: real)
    requires OnDial(x) && OnDial(z) && t <= u && e == u - t
    requires Abs(s1 - s0) <= LARGEST_STEP && Abs(c1 - c0) <= LARGEST_STEP
    requires SineAt(x) == Mix(s0, s1, t) && SineAt(z) == Mix(s0, s1, u)
    requires CosineAt(x) == Mix(c0, c1, t) && CosineAt(z) == Mix(c0, c1, u)
    ensures MovesLittle(x, z, e)
  {
    hide SineAt, CosineAt, Mix, Slowly;
    SegmentMoves(s0, s1, t, u, e, SineAt(x), SineAt(z));
    SegmentMoves(c0, c1, t, u, e, CosineAt(x), CosineAt(z));
  }

  lemma InOneInterval(x: real, y: real, i: nat)
    requires 0.0 <= x <= y < 256.0 && x.Floor == y.Floor == i
    ensures MovesLittle(x, y, y - x)
  {
    hide Sine, Cosine, SineAt, CosineAt, Mix, Slowly;
    EntryStep(i);
    InInterval(x, i);
    InInterval(y, i);
    Piece(x, y, Sine(i), Sine(i + 1), Cosine(i), Cosine(i + 1), x - i as real, y - i as real, y - x);
  }

  /** A table entry ends the interval before it. */
  lemma AtTheEnd(i: nat, z: real)
    requires i < TABLE_SIZE && z == (if i == 255 then 0.0 else (i + 1) as real)
    ensures SineAt(z) == Mix(Sine(i), Sine(i + 1), 1.0) && CosineAt(z) == Mix(Cosine(i), Cosine(i + 1), 1.0)
  {
    TablesClose();
    hide Quarter, Sine, Cosine;
    AtEntry(if i == 255 then 0 else i + 1, z);
    MixEnds(Sine(i), Sine(i + 1));
    MixEnds(Cosine(i), Cosine(i + 1));
  }

  lemma ToTheNext(x: real, z: real, i: nat)
    requires OnDial(x) && x.Floor == i && z == (if i == 255 then 0.0 else (i + 1) as real)
    ensures MovesLittle(x, z, (i + 1) as real - x)
  {
    hide Sine, Cosine, SineAt, CosineAt, Mix, Slowly;
    EntryStep(i);
    InInterval(x, i);
    AtTheEnd(i, z);
    Piece(x, z, Sine(i), Sine(i + 1), Cosine(i), Cosine(i + 1), x - i as real, 1.0, (i + 1) as real - x);
  }

  /** Up to the end of the table, where it starts over. */
  lemma ToTheTop(x: real)
    requires OnDial(x)
    ensures MovesLittle(x, 0.0, 256.0 - x)
  {
    hide MovesLittle;
    if x.Floor == 255 {
      ToTheNext(x, 0.0, 255);
    } else {
      Forwards(x, 255.0);
      ToTheNext(255.0, 0.0, 255);
      Chain(x, 255.0, 0.0, 255.0 - x, 1.0);
    }
  }

  lemma MixEnds(a: real, b: real)
    ensures Mix(a, b, 0.0) == a && Mix(a, b, 1.0) == b
  {
  }

  lemma Chain(x: real, z: real, y: real, e: real, f: real)
    requires OnDial(x) && OnDial(y) && OnDial(z) && MovesLittle(x, z, e) && MovesLittle(z, y, f)
    ensures MovesLittle(x, y, e + f)
  {
    hide SineAt, CosineAt;
  }

  // ----- from the rotor angle to the dial -----

  /** The two checks at the top of mc_calc_sin_cos. */
  function Wrapped(angle: real): real
  {
    var a := if angle < 0.0 then angle + TURN else angle;
    if a >= TURN then a - TURN else a
  }

  /** The table index is in range for the angles within one turn either side of the table, and one step before that,
      because the cast cuts towards zero; and for no others. */
  lemma IndexInTable(angle: real)
    ensures 0 <= Truncate(Wrapped(angle) / STEP) < TABLE_SIZE <==> -TURN - STEP < angle < 2.0 * TURN
    ensures Indexed(Wrapped(angle) / STEP) <==> -TURN - STEP < angle < 2.0 * TURN
    ensures OnDial(Wrapped(angle) / STEP) <==> -TURN <= angle < 2.0 * TURN
  {
    var x := Wrapped(angle) / STEP;
    assert x * STEP == Wrapped(angle);
    assert 256.0 * STEP == TURN;
  }

  lemma PastTheEntry(angle: real, i: real, step: real)
    requires step > 0.0
    ensures (angle - i * step) * (1.0 / step) == angle / step - i
  {
    var r := 1.0 / step;
    assert r * step == 1.0;
    assert angle / step == angle * r by { assert (angle * r) * step == angle * (r * step); }
    assert (angle - i * step) * r == angle * r - i * (step * r);
  }

  lemma MixIs(y0: real, y1: real, temp: real, t: real)
    requires temp == t
    ensures y0 + (y1 - y0) * temp == Mix(y0, y1, t)
  {
  }

  /** mc_calc_sin_cos. */
  method CalcSinCos(rotorAngle: real) returns (sin: real, cos: real)
    requires -TURN - STEP < rotorAngle < 2.0 * TURN
    ensures Indexed(Wrapped(rotorAngle) / STEP)
    ensures sin == SineAt(Wrapped(rotorAngle) / STEP) && cos == CosineAt(Wrapped(rotorAngle) / STEP)
    ensures if -TURN <= rotorAngle then UnitPair(sin, cos) else LongPair(sin, cos)
  {
    IndexInTable(rotorAngle);
    if -TURN <= rotorAngle { NormAt(Wrapped(rotorAngle) / STEP); } else { Extrapolated(Wrapped(rotorAngle) / STEP); }
    var angle := rotorAngle;
    if angle < 0.0 { angle := angle + TURN; }
    if angle >= TURN { angle := angle - TURN; }
    sin, cos := LookUp(angle, Wrapped(rotorAngle) / STEP);
  }

  /** Its table part; `x` is the angle in steps. */
  method LookUp(angle: real, ghost x: real) returns (sin: real, cos: real)
    requires x == angle / STEP && Indexed(x)
    ensures sin == SineAt(x) && cos == CosineAt(x)
  {
    TablesClose();
    hide Quarter, Sine, Cosine;
    var index := Truncate(angle / STEP);
    var indexNext := index + 1;
    if indexNext >= TABLE_SIZE { indexNext := 0; }
    var x0 := index as real * STEP;
    var temp := (angle - x0) * (1.0 / STEP);
    PastTheEntry(angle, index as real, STEP);
    var y0, y1 := Sine(index), Sine(indexNext);
    MixIs(y0, y1, temp, x - index as real);
    sin := y0 + (y1 - y0) * temp;
    y0, y1 := Cosine(index), Cosine(indexNext);
    MixIs(y0, y1, temp, x - index as real);
    cos := y0 + (y1 - y0) * temp;
  }

  // ----- inverse Park, and from there to the on-times -----

  /** Turning a vector scales its length by that of the sine-cosine pair. */
  lemma Rotation(d: real, q: real, sin: real, cos: real)
    ensures var alpha, beta := d * cos - q * sin, d * sin + q * cos;
      alpha * alpha + beta * beta == (d * d + q * q) * (sin * sin + cos * cos)
  {
  }

  /** A vector of length at most 1 stays inside the modulation hexagon. */
  lemma CircleInHexagon(alpha: real, beta: real)
    requires alpha * alpha + beta * beta <= 0.99999
    ensures Abs(Vr1(alpha, beta)) <= 1.0 && Abs(Vr2(alpha, beta)) <= 1.0 && Abs(Vr3(alpha, beta)) <= 1.0
  {
    Projection(alpha, beta, 0.0, 1.0);
    Projection(alpha, beta, SQRT3_BY2, -0.5);
    Projection(alpha, beta, -SQRT3_BY2, -0.5);
    assert SQRT3_BY2 * SQRT3_BY2 <= 0.750001;
  }

  /** The Cauchy-Schwarz inequality, against a direction of length (nearly) 1. */
  lemma Projection(a: real, b: real, u: real, v: real)
    requires a * a + b * b <= 0.99999 && u * u + v * v <= 1.000001
    ensures Abs(u * a + v * b) <= 1.0
  {
    var p, r := u * a + v * b, u * b - v * a;
    Lagrange(a, b, u, v);
    SquareNonNegative(r);
    SquareNonNegative(a);
    SquareNonNegative(b);
    hide Abs;
    Remainder(p * p, r * r, a * a + b * b, u * u + v * v, 1.000001);
    Root(p);
  }

  lemma Remainder(p2: real, r2: real, n: real, m: real, k: real)
    requires p2 + r2 == n * m && r2 >= 0.0 && 0.0 <= n && m <= k && k * n <= 1.0
    ensures p2 <= 1.0
  {
    SmallerFactor(m, k, n);
  }

  lemma Lagrange(a: real, b: real, u: real, v: real)
    ensures (u * a + v * b) * (u * a + v * b) + (u * b - v * a) * (u * b - v * a) == (a * a + b * b) * (u * u + v * v)
  {
  }

  lemma SquareNonNegative(x: real)
    ensures x * x >= 0.0
  {
    if x >= 0.0 { NonNegative(x, x); } else { NonNegative(-x, -x); }
  }

  lemma Root(p: real)
    ensures p * p <= 1.0 ==> Abs(p) <= 1.0
  {
    var m := Abs(p);
    assert m * m == p * p;
    if m > 1.0 {
      NonNegative(m - 1.0, m);
      assert (m - 1.0) * m == m * m - m;
    }
  }

  lemma StaysShort(alpha: real, beta: real, d: real, q: real, sin: real, cos: real)
    requires alpha == d * cos - q * sin && beta == d * sin + q * cos
    requires (d * d + q * q) * (sin * sin + cos * cos) <= 0.99999
    ensures alpha * alpha + beta * beta <= 0.99999
  {
    Rotation(d, q, sin, cos);
  }

  lemma FitsIfShort(alpha: real, beta: real, period: real)
    requires period > 0.0 && alpha * alpha + beta * beta <= 0.99999
    ensures Within(Modulate(alpha, beta, period), period)
  {
    CircleInHexagon(alpha, beta);
    FitsIffNotOvermodulated(alpha, beta, period);
  }

  lemma LengthBound(n: real, m: real, most: real, longest: real)
    requires 0.0 <= n <= most && 0.0 <= m <= longest && most * longest <= 0.99999
    ensures n * m <= 0.99999
  {
    SmallerFactor(n, most, m);
    SmallerFactor(m, longest, most);
    assert most >= 0.0;
  }

  /** The squared demand allowed: 0.9999, and less where the pair is too long. */
  function DemandLimit(angle: real): real
  {
    if -TURN <= angle then 0.9999 else 0.998
  }

  /** At every angle with an index, a demand up to that limit gives on-times within the period. */
  lemma DutiesFit(angle: real, d: real, q: real, sin: real, cos: real, period: real)
    requires period > 0.0 && d * d + q * q <= DemandLimit(angle)
    requires if -TURN <= angle then UnitPair(sin, cos) else LongPair(sin, cos)
    ensures Within(Modulate(d * cos - q * sin, d * sin + q * cos, period), period)
  {
    SquareNonNegative(d);
    SquareNonNegative(q);
    LengthBound(d * d + q * q, sin * sin + cos * cos, DemandLimit(angle), if -TURN <= angle then 1.0000012 else 1.0013);
    var alpha, beta := d * cos - q * sin, d * sin + q * cos;
    StaysShort(alpha, beta, d, q, sin, cos);
    FitsIfShort(alpha, beta, period);
  }

  /** The two current controllers are limited to 0.98 each, and not together: their corner leaves the period. */
  lemma LimitsAllowOvermodulation(period: real)
    requires period > 0.0
    ensures Sine(0) == 0.0 && Cosine(0) == 1.0
    ensures !Within(Modulate(0.98 * Cosine(0) - 0.98 * Sine(0), 0.98 * Sine(0) + 0.98 * Cosine(0), period), period)
  {
    FitsIffNotOvermodulated(0.98, 0.98, period);
  }

  // ----- Clarke and Park, as written -----

  /** The two Park components; mc_clarke_park_transform stores both in d_axis, the second over the first. */
  function Direct(alpha: real, beta: real, sin: real, cos: real): real { alpha * cos + beta * sin }

  function Quadrature(alpha: real, beta: real, sin: real, cos: real): real { -alpha * sin + beta * cos }

  function Inverse1(d: real, q: real, sin: real, cos: real): real { d * cos - q * sin }

  function Inverse2(d: real, q: real, sin: real, cos: real): real { d * sin + q * cos }

  /** Which way they turn: at an angle with that sine and cosine, the d axis of the rotor lies at (cos, sin), and the q
      axis a quarter turn ahead of it. */
  lemma Axes(sin: real, cos: real, u: real)
    ensures Inverse1(u, 0.0, sin, cos) == u * cos && Inverse2(u, 0.0, sin, cos) == u * sin
    ensures Inverse1(0.0, u, sin, cos) == -(u * sin) && Inverse2(0.0, u, sin, cos) == u * cos
    ensures Direct(cos, sin, sin, cos) == sin * sin + cos * cos && Quadrature(cos, sin, sin, cos) == 0.0
    ensures Direct(-sin, cos, sin, cos) == 0.0 && Quadrature(-sin, cos, sin, cos) == sin * sin + cos * cos
  {
  }

  /** Had both components been stored, the inverse transform would give back the vector, scaled by the squared length of
      the sine-cosine pair. */
  lemma TurnedBack(alpha: real, beta: real, sin: real, cos: real)
    ensures var d, q, n := Direct(alpha, beta, sin, cos), Quadrature(alpha, beta, sin, cos), SquaredLength(sin, cos);
      Inverse1(d, q, sin, cos) == n * alpha && Inverse2(d, q, sin, cos) == n * beta
  {
  }

  lemma TurnedForwards(d: real, q: real, sin: real, cos: real)
    ensures var alpha, beta, n := Inverse1(d, q, sin, cos), Inverse2(d, q, sin, cos), SquaredLength(sin, cos);
      Direct(alpha, beta, sin, cos) == n * d && Quadrature(alpha, beta, sin, cos) == n * q
  {
  }

  lemma InverseScales(d: real, q: real, sin: real, cos: real, n: real, d1: real, q1: real)
    requires d1 == n * d && q1 == n * q
    ensures Inverse1(d1, q1, sin, cos) == n * Inverse1(d, q, sin, cos)
    ensures Inverse2(d1, q1, sin, cos) == n * Inverse2(d, q, sin, cos)
  {
  }

  lemma Cancel(n: real, x: real, y: real)
    requires n > 0.0 && n * x == n * y
    ensures x == y
  {
    Distributes(n, x, y);
    if x > y { Positive(n, x - y); }
    if x < y {
      Distributes(n, y, x);
      Positive(n, y - x);
    }
  }

  /** With `d` as the transform leaves it and `q` as it was before, the inverse transform gives the vector back exactly
      when the lost component is `n` times the stored one, and that is `n` times `q`; `n` is the squared length of the
      sine-cosine pair. */
  lemma RoundTripIff(alpha: real, beta: real, sin: real, cos: real, d: real, q: real)
    requires d == Quadrature(alpha, beta, sin, cos) && SquaredLength(sin, cos) > 0.0
    ensures alpha == Inverse1(d, q, sin, cos) && beta == Inverse2(d, q, sin, cos) <==>
            Comes(Direct(alpha, beta, sin, cos), d, q, SquaredLength(sin, cos))
  {
    hide Direct, Quadrature, Inverse1, Inverse2, SquaredLength;
    var n, direct := SquaredLength(sin, cos), Direct(alpha, beta, sin, cos);
    TurnedBack(alpha, beta, sin, cos);
    TurnedForwards(d, q, sin, cos);
    if Comes(direct, d, q, n) {
      InverseScales(d, q, sin, cos, n, direct, d);
      Cancel(n, alpha, Inverse1(d, q, sin, cos));
      Cancel(n, beta, Inverse2(d, q, sin, cos));
    }
  }

  /** The condition under which a vector comes back. */
  predicate Comes(direct: real, d: real, q: real, n: real)
  {
    direct == n * d && d == n * q
  }

  /** At angle 0 a current along alpha is lost. */
  lemma RoundTripFails(q: real)
    ensures var d := Quadrature(1.0, 0.0, Sine(0), Cosine(0)); d * Cosine(0) - q * Sine(0) != 1.0
  {
  }

  lemma LengthPositive(sin: real, cos: real)
    ensures UnitPair(sin, cos) || LongPair(sin, cos) ==> SquaredLength(sin, cos) > 0.0
  {
  }

  class AngleTransform {
    var alpha: real
    var beta: real
    var dAxis: real
    var qAxis: real
    var sinAngle: real
    var cosAngle: real

    constructor ()
    {
    }

    /** mc_clarke_park_transform: both Park components go to d_axis, and q_axis stays as it was. */
    method ClarkePark(ia: real, ib: real, angle: real)
      requires -TURN - STEP < angle < 2.0 * TURN
      modifies this`alpha, this`beta, this`dAxis, this`sinAngle, this`cosAngle
      ensures Indexed(Wrapped(angle) / STEP)
      ensures sinAngle == SineAt(Wrapped(angle) / STEP) && cosAngle == CosineAt(Wrapped(angle) / STEP)
      ensures alpha == ia && beta == ia * ONE_BY_SQRT3 + ib * TWO_BY_SQRT3
      ensures dAxis == Quadrature(alpha, beta, sinAngle, cosAngle) && qAxis == old(qAxis)
      ensures SquaredLength(sinAngle, cosAngle) > 0.0
    {
      alpha := ia;
      beta := ia * ONE_BY_SQRT3 + ib * TWO_BY_SQRT3;
      hide SineAt, CosineAt, Wrapped, Indexed, UnitPair, LongPair, Quadrature, SquaredLength;
      sinAngle, cosAngle := CalcSinCos(angle);
      LengthPositive(sinAngle, cosAngle);
      Park();
    }

    /** mc_clarke_park_transform and straight back: at every angle with an index, and for every q_axis there was before,
        exactly when the vector comes back. */
    method ForthAndBack(ia: real, ib: real, angle: real)
      requires -TURN - STEP < angle < 2.0 * TURN
      modifies this
      ensures Indexed(Wrapped(angle) / STEP)
      ensures sinAngle == SineAt(Wrapped(angle) / STEP) && cosAngle == CosineAt(Wrapped(angle) / STEP)
      ensures var b := ia * ONE_BY_SQRT3 + ib * TWO_BY_SQRT3;
        alpha == ia && beta == b <==>
          Comes(Direct(ia, b, sinAngle, cosAngle), Quadrature(ia, b, sinAngle, cosAngle), old(qAxis),
                SquaredLength(sinAngle, cosAngle))
    {
      ClarkePark(ia, ib, angle);
      hide SineAt, CosineAt, Wrapped, Indexed, Direct, Quadrature, Inverse1, Inverse2, SquaredLength, Comes;
      RoundTripIff(alpha, beta, sinAngle, cosAngle, dAxis, qAxis);
      InversePark();
    }

    /** Both components, one after the other. */
    method Park()
      modifies this`dAxis
      ensures dAxis == Quadrature(alpha, beta, sinAngle, cosAngle)
    {
      dAxis := alpha * cosAngle + beta * sinAngle;
      dAxis := -alpha * sinAngle + beta * cosAngle;
    }

    /** mc_inverse_park_transform. */
    method InversePark()
      modifies this`alpha, this`beta
      ensures alpha == Inverse1(dAxis, qAxis, sinAngle, cosAngle) && beta == Inverse2(dAxis, qAxis, sinAngle, cosAngle)
      ensures alpha * alpha + beta * beta == (dAxis * dAxis + qAxis * qAxis) * (sinAngle * sinAngle + cosAngle * cosAngle)
    {
      Rotation(dAxis, qAxis, sinAngle, cosAngle);
      alpha := dAxis * cosAngle - qAxis * sinAngle;
      beta := dAxis * sinAngle + qAxis * cosAngle;
    }
  }

  lemma DutiesFitTruncated(angle: real, d: real, q: real, sin: real, cos: real, alpha: real, beta: real, period: real)
    requires period > 0.0 && d * d + q * q <= DemandLimit(angle)
    requires if -TURN <= angle then UnitPair(sin, cos) else LongPair(sin, cos)
    requires alpha == Inverse1(d, q, sin, cos) && beta == Inverse2(d, q, sin, cos)
    ensures PwmFits(Modulate(alpha, beta, period), period)
  {
    DutiesFit(angle, d, q, sin, cos, period);
    assert Within(Modulate(alpha, beta, period), period);
    TruncatedWithin(Modulate(alpha, beta, period), period);
  }

  ghost predicate PwmFits(p: Duties, period: real)
  {
    && 0 <= Truncate(p.p1) <= Truncate(period)
    && 0 <= Truncate(p.p2) <= Truncate(period)
    && 0 <= Truncate(p.p3) <= Truncate(period)
  }

  lemma TruncatedWithin(p: Duties, period: real)
    requires Within(p, period)
    ensures PwmFits(p, period)
  {
  }

  /** Drive the motor with a given voltage vector at a given angle, as mc_rotor_alignment does and as mc_foc ends. */
  method Drive(t: AngleTransform, svm: SvPwm, angle: real)
    requires svm.period > 0.0 && -TURN - STEP < angle < 2.0 * TURN
    requires t.dAxis * t.dAxis + t.qAxis * t.qAxis <= DemandLimit(angle)
    modifies t`sinAngle, t`cosAngle, t`alpha, t`beta, svm
    ensures 0 <= svm.pwm1 <= Truncate(svm.period) && 0 <= svm.pwm2 <= Truncate(svm.period)
    ensures 0 <= svm.pwm3 <= Truncate(svm.period)
  {
    hide Modulate, UnitPair, LongPair, SineAt, CosineAt, Truncate, OnDial, Indexed, Wrapped, Inverse1, Inverse2;
    t.sinAngle, t.cosAngle := CalcSinCos(angle);
    t.InversePark();
    DutiesFitTruncated(angle, t.dAxis, t.qAxis, t.sinAngle, t.cosAngle, t.alpha, t.beta, svm.period);
    svm.Gen(t.alpha, t.beta);
  }
}
