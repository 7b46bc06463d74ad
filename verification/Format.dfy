/** The formatted printing of kservice.c, as configured: precision support on, the `#` prefix and long long off. */
module Format {

  const TWO15 := 0x8000
  const TWO16 := 0x1_0000
  const TWO31 := 0x8000_0000
  const TWO32 := 0x1_0000_0000

  // ----- numbers as text -----

  /** The bits of `type`. */
  datatype Flags = Flags(zeropad: bool, sign: bool, plus: bool, space: bool, left: bool, special: bool, large: bool)

  const NO_FLAGS := Flags(false, false, false, false, false, false, false)

  function Digit(d: nat, large: bool): char
    requires d < 16
  {
    if large then "0123456789ABCDEF"[d] else "0123456789abcdef"[d]
  }

  /** divide() knows two bases. */
  function Radix(base: nat): (b: nat)
    ensures b == 10 || b == 16
  {
    if base == 10 then 10 else 16
  }

  /** The digits of `n`, most significant first, without leading zeros. */
  function Digits(n: nat, b: nat, large: bool): string
    requires 2 <= b <= 16
  {
    if n < b then [Digit(n, large)] else Digits(n / b, b, large) + [Digit(n % b, large)]
  }

  function Repeat(c: char, n: int): (s: string)
    ensures |s| == if n <= 0 then 0 else n
  {
    if n <= 0 then "" else [c] + Repeat(c, n - 1)
  }

  function Max(a: int, b: int): int { if a >= b then a else b }

  /** The unsigned value whose digits are printed. */
  function Magnitude(num: nat, f: Flags): (m: nat)
    requires num < TWO32
    ensures m < TWO32
  {
    if f.sign && num >= TWO31 then TWO32 - num else num
  }

  function Sign(num: nat, f: Flags): string
  {
    if !f.sign then "" else if num >= TWO31 then "-" else if f.plus then "+" else if f.space then " " else ""
  }

  /** What print_number emits for the 32-bit word `num`. */
  function Number(num: nat, base: nat, width: int, precision: int, f: Flags): string
    requires num < TWO32
  {
    var digits := Digits(Magnitude(num, f), Radix(base), f.large);
    var sign := Sign(num, f);
    var count := Max(|digits|, precision);
    var pad := width - count - |sign|;
    var body := Repeat('0', count - |digits|) + (if precision == 0 then "" else digits);
    if f.left then sign + body + Repeat(' ', pad)
    else if f.zeropad then sign + Repeat('0', pad) + body
    else Repeat(' ', pad) + sign + body
  }

  // ----- what the digits say -----

  function DigitOf(c: char): nat
  {
    if '0' <= c <= '9' then c as int - '0' as int
    else if 'a' <= c <= 'f' then c as int - 'a' as int + 10
    else if 'A' <= c <= 'F' then c as int - 'A' as int + 10
    else 0
  }

  /** One more digit behind a number. */
  function Onto(v: nat, b: nat, d: nat): nat
  {
    v * b + d
  }

  function Value(s: string, b: nat): nat
  {
    if s == "" then 0 else Onto(Value(s[..|s| - 1], b), b, DigitOf(s[|s| - 1]))
  }

  ghost predicate IsDigitIn(c: char, b: nat, large: bool)
    requires b <= 16
  {
    exists d: nat :: d < b && c == Digit(d, large)
  }

  /** Digits of the base, at least one, and no zero in front of another. */
  ghost predicate Numeral(s: string, b: nat, large: bool)
    requires b <= 16
  {
    && s != "" && (|s| > 1 ==> s[0] != '0')
    && forall i :: 0 <= i < |s| ==> IsDigitIn(s[i], b, large)
  }

  lemma DigitFacts(d: nat, large: bool)
    requires d < 16
    ensures DigitOf(Digit(d, large)) == d && (Digit(d, large) == '0' <==> d == 0)
  {
  }

  lemma Multiple(x: int, b: int)
    requires b > 0
    ensures x >= 1 ==> x * b >= b
    ensures x <= -1 ==> x * b <= -b
  {
  }

  lemma SameQuotient(q: nat, r: nat, v: nat, d: nat, b: nat)
    requires q * b + r == v * b + d && r < b && d < b
    ensures q == v && r == d
  {
    assert (q - v) * b == d - r;
    Multiple(q - v, b);
  }

  lemma OntoZero(b: nat, d: nat)
    ensures Onto(0, b, d) == d
  {
  }

  lemma OntoQuotient(n: nat, b: nat)
    requires b > 0
    ensures Onto(n / b, b, n % b) == n
  {
  }

  lemma Divided(v: nat, d: nat, b: nat)
    requires d < b
    ensures Onto(v, b, d) / b == v && Onto(v, b, d) % b == d
    ensures v >= 1 ==> Onto(v, b, d) >= b
  {
    Multiple(v, b);
    var n := Onto(v, b, d);
    OntoQuotient(n, b);
    SameQuotient(n / b, n % b, v, d, b);
  }

  lemma SmallerQuotient(n: nat, b: nat, q: nat)
    requires 2 <= b <= n && q == n / b
    ensures 0 < q < n
  {
    OntoQuotient(n, b);
    Halved(n, b, q, n % b);
  }

  lemma Halved(n: nat, b: nat, q: nat, d: nat)
    requires 2 <= b <= n && d < b && n == Onto(q, b, d)
    ensures 0 < q < n
  {
    if q == 0 { OntoZero(b, d); }
    if q > 0 { Multiple(b - 1, q); }
  }

  /** What is printed for `n` is a numeral of its value. */
  lemma {:induction false} DigitsSayValue(n: nat, b: nat, large: bool)
    requires 2 <= b <= 16
    ensures Numeral(Digits(n, b, large), b, large) && Value(Digits(n, b, large), b) == n
    ensures n > 0 ==> Digits(n, b, large)[0] != '0'
  {
    hide Value, Onto, Numeral;
    if n < b {
      OneDigitSays(n, b, large);
    } else {
      var q, d := n / b, n % b;
      SmallerQuotient(n, b, q);
      assert Digits(n, b, large) == Digits(q, b, large) + [Digit(d, large)];
      OntoQuotient(n, b);
      DigitsSayValue(q, b, large);
      hide Digits;
      MoreDigitsSay(n, q, d, b, large);
    }
  }

  lemma OneDigitSays(n: nat, b: nat, large: bool)
    requires 2 <= b <= 16 && n < b
    ensures Numeral([Digit(n, large)], b, large) && Value([Digit(n, large)], b) == n
    ensures n > 0 ==> Digit(n, large) != '0'
  {
    DigitFacts(n, large);
    OntoZero(b, n);
    hide Digit, Onto, DigitOf;
    ValueAppend("", Digit(n, large), b);
    assert "" + [Digit(n, large)] == [Digit(n, large)];
    assert IsDigitIn([Digit(n, large)][0], b, large);
  }

  lemma MoreDigitsSay(n: nat, q: nat, d: nat, b: nat, large: bool)
    requires 2 <= b <= 16 && d < b && n == Onto(q, b, d)
    requires Numeral(Digits(q, b, large), b, large) && Value(Digits(q, b, large), b) == q && Digits(q, b, large)[0] != '0'
    ensures var s := Digits(q, b, large) + [Digit(d, large)];
      Numeral(s, b, large) && Value(s, b) == n && s[0] != '0'
  {
    DigitFacts(d, large);
    hide Digit, DigitOf, Digits, Onto, Value;
    assert IsDigitIn(Digit(d, large), b, large);
    NumeralAppend(Digits(q, b, large), Digit(d, large), b, large);
    ValueAppend(Digits(q, b, large), Digit(d, large), b);
  }

  lemma ValueAppend(front: string, c: char, b: nat)
    ensures Value(front + [c], b) == Onto(Value(front, b), b, DigitOf(c))
  {
    hide Onto, DigitOf;
    assert (front + [c])[..|front|] == front;
  }

  lemma NumeralAppend(front: string, c: char, b: nat, large: bool)
    requires b <= 16 && Numeral(front, b, large) && front[0] != '0' && IsDigitIn(c, b, large)
    ensures Numeral(front + [c], b, large) && (front + [c])[0] != '0'
  {
    var s := front + [c];
    forall i | 0 <= i < |s| ensures IsDigitIn(s[i], b, large) {
      if i < |front| { assert s[i] == front[i]; }
    }
  }

  lemma {:induction false} NoLeadingZero(s: string, b: nat, large: bool)
    requires 2 <= b <= 16 && s != "" && s[0] != '0' && forall i :: 0 <= i < |s| ==> IsDigitIn(s[i], b, large)
    ensures Value(s, b) >= 1
  {
    hide Onto, DigitOf, Digit;
    var front, last := s[..|s| - 1], s[|s| - 1];
    assert IsDigitIn(last, b, large);
    var d: nat :| d < b && last == Digit(d, large);
    DigitFacts(d, large);
    if |s| == 1 {
      OntoZero(b, d);
    } else {
      forall i | 0 <= i < |front| ensures IsDigitIn(front[i], b, large) { assert front[i] == s[i]; }
      NoLeadingZero(front, b, large);
      Divided(Value(front, b), d, b);
    }
  }

  lemma {:induction false} NumeralIsDigits(s: string, b: nat, large: bool)
    requires 2 <= b <= 16 && Numeral(s, b, large)
    ensures s == Digits(Value(s, b), b, large)
  {
    hide Onto, DigitOf, Digit;
    var front, last := s[..|s| - 1], s[|s| - 1];
    assert IsDigitIn(last, b, large);
    var d: nat :| d < b && last == Digit(d, large);
    DigitFacts(d, large);
    assert s == front + [last];
    if front == "" {
      OntoZero(b, d);
    } else {
      forall i | 0 <= i < |front| ensures IsDigitIn(front[i], b, large) { assert front[i] == s[i]; }
      NumeralIsDigits(front, b, large);
      NoLeadingZero(front, b, large);
      Divided(Value(front, b), d, b);
    }
  }

  /** The digits printed for `n` are the one numeral of that value: right in either base, and as short as can be. */
  lemma OnlyNumeral(n: nat, b: nat, large: bool, s: string)
    requires 2 <= b <= 16
    ensures s == Digits(n, b, large) <==> Numeral(s, b, large) && Value(s, b) == n
  {
    hide Value, Digits, Numeral;
    DigitsSayValue(n, b, large);
    if Numeral(s, b, large) { NumeralIsDigits(s, b, large); }
  }

  /** Unless the precision is 0, a number takes up the width, or what its sign and digits need if that is more. */
  lemma NumberLength(num: nat, base: nat, width: int, precision: int, f: Flags)
    requires num < TWO32
    ensures var digits := Digits(Magnitude(num, f), Radix(base), f.large);
      var needed := Max(|digits|, precision) + |Sign(num, f)|;
      |Number(num, base, width, precision, f)| == Max(width, needed) - if precision == 0 then |digits| else 0
  {
  }

  // ----- where every character of a number stands -----

  function Power(b: nat, k: nat): nat
  {
    if k == 0 then 1 else b * Power(b, k - 1)
  }

  lemma {:induction false} PowerPositive(b: nat, k: nat)
    requires b > 0
    ensures Power(b, k) > 0
  {
    if k > 0 { PowerPositive(b, k - 1); }
  }

  /** The digit of weight b^k. */
  function DigitOfWeight(n: nat, b: nat, k: nat): (d: nat)
    requires b > 0
    ensures d < b
  {
    PowerPositive(b, k);
    n / Power(b, k) % b
  }

  lemma Nested(n: nat, b: nat, p: nat)
    requires b > 0 && p > 0
    ensures b * p > 0 && n / (b * p) == n / b / p
  {
    var q, r := n / b, n % b;
    var x, y := q / p, q % p;
    OntoQuotient(n, b);
    OntoQuotient(q, p);
    NestedSum(n, b, p, q, r, x, y);
    SameQuotient(n / (b * p), n % (b * p), x, y * b + r, b * p) by {
      OntoQuotient(n, b * p);
    }
  }

  lemma NestedSum(n: nat, b: nat, p: nat, q: nat, r: nat, x: nat, y: nat)
    requires n == q * b + r && r < b && q == x * p + y && y < p
    ensures b * p > 0 && n == x * (b * p) + (y * b + r) && y * b + r < b * p
  {
    assert q * b == x * p * b + y * b;
    Scaled(y + 1, p, b);
    assert (y + 1) * b == y * b + b;
  }

  lemma Scaled(a: nat, c: nat, k: nat)
    requires a <= c
    ensures a * k <= c * k
  {
  }

  lemma WeightOfQuotient(n: nat, b: nat, k: nat)
    requires b > 0 && k > 0
    ensures DigitOfWeight(n, b, k) == DigitOfWeight(n / b, b, k - 1)
  {
    PowerPositive(b, k - 1);
    Nested(n, b, Power(b, k - 1));
  }

  ghost predicate StandsAt(s: string, n: nat, b: nat, large: bool, k: nat)
    requires k < |s| && 2 <= b <= 16
  {
    s[|s| - 1 - k] == (if large then "0123456789ABCDEF" else "0123456789abcdef")[DigitOfWeight(n, b, k)]
  }

  /** The digit of weight b^k stands `k` places before the end, in the case asked for, and there are just as many digits as
      the number needs. */
  lemma {:induction false} DigitsByWeight(n: nat, b: nat, large: bool)
    requires 2 <= b <= 16
    ensures var s := Digits(n, b, large);
      && s != "" && n < Power(b, |s|) && (|s| > 1 ==> Power(b, |s| - 1) <= n)
      && forall k :: 0 <= k < |s| ==> StandsAt(s, n, b, large, k)
  {
    var s := Digits(n, b, large);
    if n < b {
      OneDigitWeighs(n, b);
    } else {
      var q, front := n / b, Digits(n / b, b, large);
      SmallerQuotient(n, b, q);
      DigitsByWeight(q, b, large);
      OntoQuotient(n, b);
      PowerBounds(n, b, q, n % b, |front|);
      LastStands(front, n, b, large);
      assert s == front + [Digit(n % b, large)];
      hide StandsAt, Power, Digits, Digit, Onto;
      forall k | 0 < k < |s| ensures StandsAt(s, n, b, large, k) {
        assert StandsAt(front, q, b, large, k - 1);
        EarlierStands(front, Digit(n % b, large), n, b, large, k);
      }
    }
  }

  lemma OneDigitWeighs(n: nat, b: nat)
    requires n < b
    ensures Power(b, 1) == b && DigitOfWeight(n, b, 0) == n
  {
    assert Power(b, 0) == 1 && n / 1 == n;
  }

  lemma LastStands(front: string, n: nat, b: nat, large: bool)
    requires 2 <= b <= 16
    ensures StandsAt(front + [Digit(n % b, large)], n, b, large, 0)
  {
    assert n / Power(b, 0) == n;
  }

  lemma EarlierStands(front: string, last: char, n: nat, b: nat, large: bool, k: nat)
    requires 2 <= b <= 16 && 0 < k <= |front| && StandsAt(front, n / b, b, large, k - 1)
    ensures StandsAt(front + [last], n, b, large, k)
  {
    WeightOfQuotient(n, b, k);
  }

  lemma PowerBounds(n: nat, b: nat, q: nat, r: nat, m: nat)
    requires b > 0 && n == Onto(q, b, r) && r < b && 0 < q < Power(b, m) && m > 0 && (m > 1 ==> Power(b, m - 1) <= q)
    ensures n < Power(b, m + 1) && Power(b, m) <= n
  {
    Scaled(q + 1, Power(b, m), b);
    assert (q + 1) * b == q * b + b;
    assert Power(b, m + 1) == b * Power(b, m);
    if m > 1 { Scaled(Power(b, m - 1), q, b); } else { Scaled(1, q, b); assert Power(b, 1) == b * Power(b, 0); }
  }

  lemma {:induction false} RepeatAt(c: char, n: int)
    ensures forall i :: 0 <= i < |Repeat(c, n)| ==> Repeat(c, n)[i] == c
  {
    if n > 0 { RepeatAt(c, n - 1); }
  }

  /** A number, piece by piece: blanks, sign, zeros that fill the width, zeros that the precision asks for, digits, blanks.
      Blanks stand in front only without LEFT and ZEROPAD, and behind only with LEFT; ZEROPAD without LEFT fills with zeros
      behind the sign; a precision counts digits, and a precision of 0 leaves them out. */
  lemma NumberPieces(num: nat, base: nat, width: int, precision: int, f: Flags)
    returns (lead: string, sign: string, fill: string, zeros: string, digits: string, trail: string)
    requires num < TWO32
    ensures Number(num, base, width, precision, f) ==
      lead + sign + fill + zeros + (if precision == 0 then "" else digits) + trail
    ensures (forall i :: 0 <= i < |lead| ==> lead[i] == ' ') && (forall i :: 0 <= i < |trail| ==> trail[i] == ' ')
    ensures (forall i :: 0 <= i < |fill| ==> fill[i] == '0') && (forall i :: 0 <= i < |zeros| ==> zeros[i] == '0')
    ensures f.sign && num >= 0x8000_0000 ==> sign == "-"
    ensures f.sign && num < 0x8000_0000 ==> sign == if f.plus then "+" else if f.space then " " else ""
    ensures !f.sign ==> sign == ""
    ensures var b, n := if base == 10 then 10 else 16, if f.sign && num >= 0x8000_0000 then 0x1_0000_0000 - num else num;
      && digits == Digits(n, b, f.large)
      && digits != "" && n < Power(b, |digits|) && (|digits| > 1 ==> Power(b, |digits| - 1) <= n)
      && forall k :: 0 <= k < |digits| ==>
           digits[|digits| - 1 - k] ==
             (if f.large then "0123456789ABCDEF" else "0123456789abcdef")[DigitOfWeight(n, b, k)]
    ensures var count := if |digits| > precision then |digits| else precision;
      var pad := if width > count + |sign| then width - count - |sign| else 0;
      && |lead| == (if f.left || f.zeropad then 0 else pad) && |trail| == (if f.left then pad else 0)
      && |fill| == (if f.zeropad && !f.left then pad else 0) && |zeros| == count - |digits|
  {
    hide Digits, Number, DigitOfWeight, Power, Repeat, Assembled, Lead, StandsAt;
    digits, sign := Digits(Magnitude(num, f), Radix(base), f.large), Sign(num, f);
    DigitsByWeight(Magnitude(num, f), Radix(base), f.large);
    StandInPlain(digits, Magnitude(num, f), Radix(base), f.large);
    var count := Max(|digits|, precision);
    lead, fill, zeros, trail := Fillers(width - count - |sign|, count - |digits|, f.left, f.zeropad);
    NumberParts(num, base, width, precision, f, digits, count);
    AssembledIs(sign, if f.zeropad && !f.left then '0' else ' ', width - count - |sign|, f.left, count - |digits|,
                if precision == 0 then "" else digits, lead, fill, zeros, trail);
  }

  lemma StandInPlain(s: string, n: nat, b: nat, large: bool)
    requires 2 <= b <= 16 && forall k :: 0 <= k < |s| ==> StandsAt(s, n, b, large, k)
    ensures forall k :: 0 <= k < |s| ==>
      s[|s| - 1 - k] == (if large then "0123456789ABCDEF" else "0123456789abcdef")[DigitOfWeight(n, b, k)]
  {
    forall k | 0 <= k < |s|
      ensures s[|s| - 1 - k] == (if large then "0123456789ABCDEF" else "0123456789abcdef")[DigitOfWeight(n, b, k)]
    {
      assert StandsAt(s, n, b, large, k);
    }
  }

  lemma Fillers(pad: int, more: nat, left: bool, zeropad: bool)
    returns (lead: string, fill: string, zeros: string, trail: string)
    ensures lead == (if left || zeropad then "" else Repeat(' ', pad)) && trail == Repeat(' ', if left then pad else -1)
    ensures fill == (if zeropad && !left then Repeat('0', pad) else "") && zeros == Repeat('0', more)
    ensures (forall i :: 0 <= i < |lead| ==> lead[i] == ' ') && (forall i :: 0 <= i < |trail| ==> trail[i] == ' ')
    ensures (forall i :: 0 <= i < |fill| ==> fill[i] == '0') && (forall i :: 0 <= i < |zeros| ==> zeros[i] == '0')
    ensures var p := if pad > 0 then pad else 0;
      && |lead| == (if left || zeropad then 0 else p) && |trail| == (if left then p else 0)
      && |fill| == (if zeropad && !left then p else 0) && |zeros| == more
  {
    lead, fill := if left || zeropad then "" else Repeat(' ', pad), if zeropad && !left then Repeat('0', pad) else "";
    zeros, trail := Repeat('0', more), Repeat(' ', if left then pad else -1);
    RepeatAt(' ', pad);
    RepeatAt('0', pad);
    RepeatAt('0', more);
  }

  lemma AssembledIs(sign: string, c: char, pad: int, left: bool, more: int, shown: string,
                    lead: string, fill: string, zeros: string, trail: string)
    requires c == '0' || c == ' '
    requires lead == (if left || c == '0' then "" else Repeat(' ', pad)) && trail == Repeat(' ', if left then pad else -1)
    requires fill == (if c == '0' && !left then Repeat('0', pad) else "") && zeros == Repeat('0', more)
    ensures Assembled(sign, c, pad, left, more, shown) == lead + sign + fill + zeros + shown + trail
  {
    hide Repeat;
    assert Lead(sign, c, pad, left) == lead + sign + fill;
  }

  // ----- reading a number back -----

  predicate IsDigit(c: char)
  {
    '0' <= c <= '9'
  }

  /** The value of the digits of `s` from `i` on, read on top of `acc`, and the place behind them. */
  function Atoi(s: string, i: nat, acc: nat): (nat, nat)
    requires i <= |s|
    decreases |s| - i
  {
    if i < |s| && IsDigit(s[i]) then Atoi(s, i + 1, acc * 10 + (s[i] as int - '0' as int)) else (acc, i)
  }

  lemma {:induction false} AtoiStops(s: string, i: nat, acc: nat)
    requires i <= |s|
    ensures i <= Atoi(s, i, acc).1 <= |s|
    decreases |s| - i
  {
    if i < |s| && IsDigit(s[i]) { AtoiStops(s, i + 1, acc * 10 + (s[i] as int - '0' as int)); }
  }

  ghost predicate Decimal(s: string)
  {
    forall i :: 0 <= i < |s| ==> IsDigit(s[i])
  }

  lemma {:induction false} DigitsAreDecimal(n: nat, large: bool)
    ensures Decimal(Digits(n, 10, large)) && |Digits(n, 10, large)| >= 1
  {
    if n >= 10 { DigitsAreDecimal(n / 10, large); }
  }

  /** Reading goes on from one piece of digits to the next. */
  lemma {:induction false} AtoiJoins(s: string, c: char, rest: string, i: nat, acc: nat)
    requires Decimal(s) && IsDigit(c) && i <= |s| && (rest == "" || !IsDigit(rest[0]))
    ensures Atoi(s, i, acc).1 == |s|
    ensures Atoi(s + [c] + rest, i, acc) == (Atoi(s, i, acc).0 * 10 + (c as int - '0' as int), |s| + 1)
    decreases |s| - i
  {
    var t := s + [c] + rest;
    if i < |s| {
      assert t[i] == s[i];
      AtoiJoins(s, c, rest, i + 1, acc * 10 + (s[i] as int - '0' as int));
    } else {
      assert t[i] == c && (i + 1 < |t| ==> t[i + 1] == rest[0]);
    }
  }

  lemma DigitValue(d: nat, large: bool)
    requires d < 10
    ensures IsDigit(Digit(d, large)) && Digit(d, large) as int - '0' as int == d
  {
  }

  /** skip_atoi reads back what print_number prints, and stops behind it. */
  lemma {:induction false} DecimalRoundTrip(n: nat, large: bool, rest: string)
    requires rest == "" || !IsDigit(rest[0])
    ensures Atoi(Digits(n, 10, large) + rest, 0, 0) == (n, |Digits(n, 10, large)|)
  {
    var front := if n < 10 then "" else Digits(n / 10, 10, large);
    var last := Digit(n % 10, large);
    assert Digits(n, 10, large) == front + [last];
    DigitValue(n % 10, large);
    if n >= 10 {
      DecimalRoundTrip(n / 10, large, "");
      assert front + "" == front;
      DigitsAreDecimal(n / 10, large);
    }
    hide Digit, Digits;
    AtoiJoins(front, last, rest, 0, 0);
  }

  /** Reading does not notice what stands in front. */
  lemma {:induction false} AtoiBehind(p: string, s: string, i: nat, acc: nat)
    requires i <= |s|
    ensures |p| + i <= |p + s| && Atoi(p + s, |p| + i, acc) == (Atoi(s, i, acc).0, |p| + Atoi(s, i, acc).1)
    decreases |s| - i
  {
    if i < |s| {
      assert (p + s)[|p| + i] == s[i];
      if IsDigit(s[i]) { AtoiBehind(p, s, i + 1, acc * 10 + (s[i] as int - '0' as int)); }
    }
  }

  /** Zeros in front do not count. */
  lemma {:induction false} AtoiZeros(zeros: string, s: string)
    requires forall i :: 0 <= i < |zeros| ==> zeros[i] == '0'
    ensures Atoi(zeros + s, 0, 0) == (Atoi(s, 0, 0).0, |zeros| + Atoi(s, 0, 0).1)
  {
    if zeros == "" {
      assert zeros + s == s;
    } else {
      var rest := zeros[1..];
      AtoiZeros(rest, s);
      assert zeros + s == [zeros[0]] + (rest + s);
      AtoiBehind([zeros[0]], rest + s, 0, 0);
    }
  }

  /** A decimal is read back whatever its flags, width and precision, unless a precision of 0 leaves it out: behind blanks
      and a sign, which is the one the flags ask for, stands its absolute value, and only blanks behind that. */
  lemma DecimalReadBack(num: nat, width: int, precision: int, f: Flags) returns (i: nat)
    requires num < TWO32 && precision != 0
    ensures var text := Number(num, 10, width, precision, f);
      && i <= |text|
      && Atoi(text, i, 0).0 == (if f.sign && num >= 0x8000_0000 then 0x1_0000_0000 - num else num)
      && (forall j :: Atoi(text, i, 0).1 <= j < |text| ==> text[j] == ' ')
      && (if f.sign && num >= 0x8000_0000 then i > 0 && text[i - 1] == '-'
          else if f.sign && f.plus then i > 0 && text[i - 1] == '+'
          else if f.sign && f.space then i > 0 && text[i - 1] == ' '
          else i == 0 || text[i - 1] == ' ')
      && (forall j :: 0 <= j < i - 1 ==> text[j] == ' ')
  {
    var n := if f.sign && num >= 0x8000_0000 then 0x1_0000_0000 - num else num;
    var front, zeros, trail := DecimalParts(num, width, precision, f, n);
    i := |front|;
    DecimalRoundTrip(n, f.large, trail);
    hide *;
    ReadPieces(front, zeros, Digits(n, 10, f.large), trail, n);
    Ends(Number(num, 10, width, precision, f), front, zeros, Digits(n, 10, f.large), trail);
  }

  lemma DecimalParts(num: nat, width: int, precision: int, f: Flags, n: nat)
    returns (front: string, zeros: string, trail: string)
    requires num < TWO32 && precision != 0 && n == if f.sign && num >= 0x8000_0000 then 0x1_0000_0000 - num else num
    ensures Number(num, 10, width, precision, f) == front + (zeros + (Digits(n, 10, f.large) + trail))
    ensures (forall j :: 0 <= j < |zeros| ==> zeros[j] == '0') && (forall j :: 0 <= j < |trail| ==> trail[j] == ' ')
    ensures forall j :: 0 <= j < |front| - 1 ==> front[j] == ' '
    ensures if f.sign && num >= 0x8000_0000 then front != "" && front[|front| - 1] == '-'
            else if f.sign && f.plus then front != "" && front[|front| - 1] == '+'
            else if f.sign && f.space then front != "" && front[|front| - 1] == ' '
            else front == "" || front[|front| - 1] == ' '
  {
    var lead, sign, fill, digits;
    lead, sign, fill, zeros, digits, trail := NumberPieces(num, 10, width, precision, f);
    hide *;
    Rejoin(lead + sign, fill, zeros, digits, trail);
    FrontEnds(lead, sign);
    front, zeros := lead + sign, fill + zeros;
  }

  lemma Ends(text: string, front: string, zeros: string, digits: string, trail: string)
    requires text == front + (zeros + (digits + trail))
    ensures forall j :: 0 <= j < |front| ==> text[j] == front[j]
    ensures (forall j :: 0 <= j < |trail| ==> trail[j] == ' ') ==>
      forall j :: |front| + |zeros| + |digits| <= j < |text| ==> text[j] == ' '
  {
  }

  lemma FrontEnds(lead: string, sign: string)
    requires |sign| <= 1 && forall j :: 0 <= j < |lead| ==> lead[j] == ' '
    ensures var front := lead + sign;
      && (forall j :: 0 <= j < |front| - 1 ==> front[j] == ' ')
      && (front == "" || front[|front| - 1] == if sign == "" then ' ' else sign[0])
  {
  }

  lemma Rejoin(a: string, fill: string, zeros: string, digits: string, trail: string)
    ensures a + ((fill + zeros) + (digits + trail)) == a + fill + zeros + digits + trail
  {
  }

  lemma ReadPieces(front: string, zeros: string, digits: string, trail: string, n: nat)
    requires Atoi(digits + trail, 0, 0) == (n, |digits|)
    requires forall i :: 0 <= i < |zeros| ==> zeros[i] == '0'
    ensures var text := front + (zeros + (digits + trail));
      |front| <= |text| && Atoi(text, |front|, 0) == (n, |front| + |zeros| + |digits|)
  {
    AtoiZeros(zeros, digits + trail);
    AtoiBehind(front, zeros + (digits + trail), 0, 0);
  }

  /** A plainly printed decimal below 2^31 is read back as itself. */
  lemma PlainRoundTrip(n: nat, sign: bool)
    requires n < TWO31
    ensures var text := Number(n, 10, -1, -1, NO_FLAGS.(sign := sign)); Atoi(text, 0, 0) == (n, |text|)
  {
    DecimalRoundTrip(n, false, "");
    var digits := Digits(n, 10, false);
    assert digits + "" == digits;
    assert Number(n, 10, -1, -1, NO_FLAGS.(sign := sign)) == digits;
  }

  /** A bound for the digits still to come: each one divides by 10 or 16, that is, by more than 8. */
  function Pow8(n: nat): nat
  {
    if n == 0 then 1 else 8 * Pow8(n - 1)
  }

  // ----- directives -----

  /** A variable argument: the word an integer or pointer is passed as, and the string it points to if it is one. */
  datatype Arg = Arg(word: nat, text: Text)

  datatype Text = NoText | Text(chars: string)

  type Args = nat -> Arg

  function Word(args: Args, k: nat): (w: nat)
    ensures w < TWO32
  {
    args(k).word % TWO32
  }

  function Signed(w: nat): int
  {
    if w >= TWO31 then w - TWO32 else w
  }

  /** The format from `i` on, where a character stands for itself; past its end it reads as NUL. */
  function At(fmt: string, i: nat): char
  {
    if i < |fmt| then fmt[i] else '\0'
  }

  /** What has been read of a directive: the place behind it and the number of arguments used so far. */
  datatype Spec = Spec(flags: Flags, width: int, precision: int, qualifier: char, next: nat, used: nat)

  function ReadFlags(fmt: string, i: nat, f: Flags): (Flags, nat)
    decreases |fmt| - i
  {
    if i >= |fmt| then (f, i)
    else match fmt[i]
      case '-' => ReadFlags(fmt, i + 1, f.(left := true))
      case '+' => ReadFlags(fmt, i + 1, f.(plus := true))
      case ' ' => ReadFlags(fmt, i + 1, f.(space := true))
      case '#' => ReadFlags(fmt, i + 1, f.(special := true))
      case '0' => ReadFlags(fmt, i + 1, f.(zeropad := true))
      case _ => (f, i)
  }

  /** A width; a negative one taken from the arguments means left-justified. */
  function ReadWidth(fmt: string, s: Spec, args: Args): Spec
    requires s.next <= |fmt|
  {
    if IsDigit(At(fmt, s.next)) then
      var (n, j) := Atoi(fmt, s.next, 0); s.(width := n, next := j)
    else if At(fmt, s.next) == '*' then
      var w := Signed(Word(args, s.used));
      if w < 0 then s.(width := -w, flags := s.flags.(left := true), next := s.next + 1, used := s.used + 1)
      else s.(width := w, next := s.next + 1, used := s.used + 1)
    else s
  }

  function ReadPrecision(fmt: string, s: Spec, args: Args): Spec
    requires s.next <= |fmt|
  {
    if At(fmt, s.next) != '.' then s
    else if IsDigit(At(fmt, s.next + 1)) then
      var (n, j) := Atoi(fmt, s.next + 1, 0); s.(precision := n, next := j)
    else if At(fmt, s.next + 1) == '*' then
      s.(precision := Max(Signed(Word(args, s.used)), 0), next := s.next + 2, used := s.used + 1)
    else s.(precision := 0, next := s.next + 1)
  }

  function ReadQualifier(fmt: string, s: Spec): Spec
  {
    if At(fmt, s.next) == 'h' || At(fmt, s.next) == 'l' then s.(qualifier := At(fmt, s.next), next := s.next + 1) else s
  }

  lemma {:induction false} FlagsStop(fmt: string, i: nat, f: Flags)
    requires i <= |fmt|
    ensures i <= ReadFlags(fmt, i, f).1 <= |fmt|
    decreases |fmt| - i
  {
    if i < |fmt| {
      match fmt[i]
      case '-' => FlagsStop(fmt, i + 1, f.(left := true));
      case '+' => FlagsStop(fmt, i + 1, f.(plus := true));
      case ' ' => FlagsStop(fmt, i + 1, f.(space := true));
      case '#' => FlagsStop(fmt, i + 1, f.(special := true));
      case '0' => FlagsStop(fmt, i + 1, f.(zeropad := true));
      case _ =>
    }
  }

  /** Everything between the `%` before `i` and the conversion character. */
  function ReadSpec(fmt: string, i: nat, args: Args, k: nat): (s: Spec)
    requires i <= |fmt|
    ensures i <= s.next <= |fmt|
  {
    FlagsStop(fmt, i, NO_FLAGS);
    var (f, j) := ReadFlags(fmt, i, NO_FLAGS);
    var s0 := Spec(f, -1, -1, '\0', j, k);
    AtoiStops(fmt, s0.next, 0);
    var s1 := ReadWidth(fmt, s0, args);
    if s1.next < |fmt| then
      AtoiStops(fmt, s1.next + 1, 0);
      ReadQualifier(fmt, ReadPrecision(fmt, s1, args))
    else ReadQualifier(fmt, ReadPrecision(fmt, s1, args))
  }

  /** The prefix of a string argument that `%s` shows.  A width caps it as a precision does. */
  function Shown(text: string, width: int, precision: int): string
  {
    var capped := if 0 <= width < |text| then text[..width] else text;
    if 0 < precision < |capped| then capped[..precision] else capped
  }

  function Justify(text: string, width: int, left: bool): string
  {
    if left then text + Repeat(' ', width - |text|) else Repeat(' ', width - |text|) + text
  }

  function Integer(w: nat, qualifier: char, sign: bool): (n: nat)
    requires w < TWO32
    ensures n < TWO32
  {
    if qualifier == 'h' then
      var n := w % TWO16; if sign && n >= TWO15 then n + TWO32 - TWO16 else n
    else w
  }

  /** What one directive prints, the place behind it and the number of arguments used. */
  datatype Piece = Piece(text: string, next: nat, used: nat)

  function Convert(fmt: string, s: Spec, args: Args): Piece
  {
    var next, w, f := s.next + 1, Word(args, s.used), s.flags;
    match At(fmt, s.next)
    case 'c' => Piece(Justify([(w % 256) as char], s.width, f.left), next, s.used + 1)
    case 's' =>
      var text := if args(s.used).text.NoText? then "(NULL)" else args(s.used).text.chars;
      Piece(Justify(Shown(text, s.width, s.precision), s.width, f.left), next, s.used + 1)
    case 'p' =>
      if s.width == -1 then Piece(Number(w, 16, 8, s.precision, f.(zeropad := true)), next, s.used + 1)
      else Piece(Number(w, 16, s.width, s.precision, f), next, s.used + 1)
    case '%' => Piece("%", next, s.used)
    case 'o' => Piece(Number(Integer(w, s.qualifier, false), 8, s.width, s.precision, f), next, s.used + 1)
    case 'x' => Piece(Number(Integer(w, s.qualifier, false), 16, s.width, s.precision, f), next, s.used + 1)
    case 'X' => Piece(Number(Integer(w, s.qualifier, false), 16, s.width, s.precision, f.(large := true)), next, s.used + 1)
    case 'd' => Piece(Number(Integer(w, s.qualifier, true), 10, s.width, s.precision, f.(sign := true)), next, s.used + 1)
    case 'i' => Piece(Number(Integer(w, s.qualifier, true), 10, s.width, s.precision, f.(sign := true)), next, s.used + 1)
    case 'u' => Piece(Number(Integer(w, s.qualifier, false), 10, s.width, s.precision, f), next, s.used + 1)
    case '\0' => Piece("%", s.next, s.used)
    case c => Piece("%" + [c], next, s.used)
  }

  /** What the format's next character or directive prints. */
  function NextPiece(fmt: string, i: nat, args: Args, k: nat): (p: Piece)
    requires i < |fmt| && '\0' !in fmt
    ensures i < p.next <= |fmt|
  {
    if fmt[i] != '%' then Piece([fmt[i]], i + 1, k)
    else
      NextInRange(fmt, ReadSpec(fmt, i + 1, args, k), args);
      Convert(fmt, ReadSpec(fmt, i + 1, args, k), args)
  }

  lemma PieceIs(fmt: string, i: nat, args: Args, k: nat)
    requires i < |fmt| && '\0' !in fmt
    ensures NextPiece(fmt, i, args, k).next > i
    ensures NextPiece(fmt, i, args, k) ==
            if fmt[i] != '%' then Piece([fmt[i]], i + 1, k) else Convert(fmt, ReadSpec(fmt, i + 1, args, k), args)
  {
  }

  /** The whole output: `done`, and what the format prints from `i` on with `k` arguments used, if there were no bound
      on the buffer. */
  function Expand(done: string, fmt: string, i: nat, args: Args, k: nat): string
    requires i <= |fmt| && '\0' !in fmt
    decreases |fmt| - i
  {
    if i == |fmt| then done
    else var p := NextPiece(fmt, i, args, k); Expand(done + p.text, fmt, p.next, args, p.used)
  }

  function Formatted(fmt: string, args: Args): string
    requires '\0' !in fmt
  {
    Expand("", fmt, 0, args, 0)
  }

  lemma NextInRange(fmt: string, s: Spec, args: Args)
    requires s.next <= |fmt| && '\0' !in fmt
    ensures s.next <= Convert(fmt, s, args).next <= |fmt|
  {
    if s.next < |fmt| { assert fmt[s.next] in fmt; }
  }

  // ----- what a directive says, character by character -----

  predicate IsFlag(c: char)
  {
    c == '-' || c == '+' || c == ' ' || c == '#' || c == '0'
  }

  /** The flag that a character stands for. */
  function WithFlag(f: Flags, c: char): Flags
  {
    match c
    case '-' => f.(left := true)
    case '+' => f.(plus := true)
    case ' ' => f.(space := true)
    case '#' => f.(special := true)
    case '0' => f.(zeropad := true)
    case _ => f
  }

  lemma FlagsStep(fmt: string, i: nat, f: Flags)
    requires i <= |fmt|
    ensures ReadFlags(fmt, i, f) ==
      if i < |fmt| && IsFlag(fmt[i]) then ReadFlags(fmt, i + 1, WithFlag(f, fmt[i])) else (f, i)
  {
  }

  function Has(f: Flags, c: char): bool
  {
    match c
    case '-' => f.left
    case '+' => f.plus
    case ' ' => f.space
    case '#' => f.special
    case '0' => f.zeropad
    case _ => false
  }

  lemma WithHas(f: Flags, x: char, c: char)
    requires IsFlag(x) && IsFlag(c)
    ensures Has(WithFlag(f, x), c) <==> Has(f, c) || c == x
    ensures WithFlag(f, x).sign == f.sign && WithFlag(f, x).large == f.large
  {
  }

  lemma {:induction false} OneFlag(fmt: string, i: nat, f: Flags, c: char)
    requires i <= |fmt| && IsFlag(c)
    ensures var (g, j) := ReadFlags(fmt, i, f);
      && i <= j <= |fmt| && (forall k :: i <= k < j ==> IsFlag(fmt[k])) && (j < |fmt| ==> !IsFlag(fmt[j]))
      && (Has(g, c) <==> Has(f, c) || c in fmt[i..j]) && g.sign == f.sign && g.large == f.large
    decreases |fmt| - i
  {
    FlagsStep(fmt, i, f);
    hide ReadFlags, Has, WithFlag;
    if i < |fmt| && IsFlag(fmt[i]) {
      OneFlag(fmt, i + 1, WithFlag(f, fmt[i]), c);
      WithHas(f, fmt[i], c);
      var j := ReadFlags(fmt, i + 1, WithFlag(f, fmt[i])).1;
      assert fmt[i..j] == [fmt[i]] + fmt[i + 1..j];
    }
  }

  /** Each flag is set exactly by its character, in any order and any number. */
  lemma FlagsAre(fmt: string, i: nat, f: Flags)
    requires i <= |fmt|
    ensures var (g, j) := ReadFlags(fmt, i, f);
      && i <= j <= |fmt| && (forall k :: i <= k < j ==> IsFlag(fmt[k])) && (j < |fmt| ==> !IsFlag(fmt[j]))
      && (g.left <==> f.left || '-' in fmt[i..j]) && (g.plus <==> f.plus || '+' in fmt[i..j])
      && (g.space <==> f.space || ' ' in fmt[i..j]) && (g.special <==> f.special || '#' in fmt[i..j])
      && (g.zeropad <==> f.zeropad || '0' in fmt[i..j]) && g.sign == f.sign && g.large == f.large
  {
    hide ReadFlags;
    OneFlag(fmt, i, f, '-');
    OneFlag(fmt, i, f, '+');
    OneFlag(fmt, i, f, ' ');
    OneFlag(fmt, i, f, '#');
    OneFlag(fmt, i, f, '0');
  }

  /** The flags that the characters of `s` add to `f`. */
  function Added(f: Flags, s: string): Flags
  {
    Flags(f.zeropad || '0' in s, f.sign, f.plus || '+' in s, f.space || ' ' in s, f.left || '-' in s, f.special || '#' in s,
          f.large)
  }

  lemma FlagsAdded(fmt: string, i: nat, f: Flags)
    requires i <= |fmt|
    ensures var (g, j) := ReadFlags(fmt, i, f);
      && i <= j <= |fmt| && (forall k :: i <= k < j ==> IsFlag(fmt[k])) && (j < |fmt| ==> !IsFlag(fmt[j]))
      && g == Added(f, fmt[i..j])
  {
    FlagsAre(fmt, i, f);
    hide ReadFlags, IsFlag;
  }

  lemma FlagsRead(p: string, flags: string, r: string, f: Flags)
    requires (forall k :: 0 <= k < |flags| ==> IsFlag(flags[k])) && (r == "" || !IsFlag(r[0]))
    ensures ReadFlags(p + flags + r, |p|, f) == (Added(f, flags), |p| + |flags|)
  {
    var fmt := p + flags + r;
    FlagsAdded(fmt, |p|, f);
    hide *;
    FlagsEnd(p, flags, r, ReadFlags(fmt, |p|, f).1);
  }

  /** The flags end where they are followed by something else. */
  lemma FlagsEnd(p: string, flags: string, r: string, j: nat)
    requires (forall k :: 0 <= k < |flags| ==> IsFlag(flags[k])) && (r == "" || !IsFlag(r[0]))
    requires var fmt := p + flags + r;
      |p| <= j <= |fmt| && (forall k :: |p| <= k < j ==> IsFlag(fmt[k])) && (j < |fmt| ==> !IsFlag(fmt[j]))
    ensures j == |p| + |flags| && (p + flags + r)[|p|..j] == flags
  {
    hide IsFlag;
    var fmt := p + flags + r;
    assert forall x :: |p| <= x < |p| + |flags| ==> fmt[x] == flags[x - |p|];
    assert r != "" ==> fmt[|p| + |flags|] == r[0];
  }

  function Written(n: int): string
  {
    if n < 0 then "" else Digits(n, 10, false)
  }

  /** A number in the format is read as the number that it is. */
  lemma NumberRead(p: string, n: nat, r: string)
    requires r == "" || !IsDigit(r[0])
    ensures var fmt := p + Digits(n, 10, false) + r;
      Atoi(fmt, |p|, 0) == (n, |p| + |Digits(n, 10, false)|) && IsDigit(At(fmt, |p|))
  {
    var d := Digits(n, 10, false);
    DecimalRoundTrip(n, false, r);
    DigitsAreDecimal(n, false);
    AtoiBehind(p, d + r, 0, 0);
    assert p + (d + r) == p + d + r;
    assert (p + d + r)[|p|] == d[0];
  }

  lemma WidthRead(p: string, width: int, r: string, s: Spec, args: Args)
    requires s.next == |p| && s.width == -1 && width >= -1 && r != "" && !IsDigit(r[0]) && r[0] != '*'
    ensures ReadWidth(p + Written(width) + r, s, args) == s.(width := width, next := |p| + |Written(width)|)
  {
    hide Digits, Atoi;
    if width >= 0 {
      NumberRead(p, width, r);
    } else {
      assert (p + "" + r)[|p|] == r[0];
    }
  }

  lemma PrecisionRead(p: string, precision: int, r: string, s: Spec, args: Args)
    requires s.next == |p| && s.precision == -1 && precision >= -1 && r != "" && !IsDigit(r[0]) && r[0] != '.'
    ensures var text := if precision < 0 then "" else "." + Written(precision);
      ReadPrecision(p + text + r, s, args) == s.(precision := precision, next := |p| + |text|)
  {
    hide Digits, Atoi;
    if precision >= 0 {
      NumberRead(p + ".", precision, r);
      assert p + "." + Digits(precision, 10, false) + r == p + ("." + Digits(precision, 10, false)) + r;
      assert (p + ("." + Digits(precision, 10, false)) + r)[|p|] == '.';
    } else {
      assert (p + "" + r)[|p|] == r[0];
    }
  }

  lemma QualifierRead(p: string, qualifier: char, r: string, s: Spec)
    requires s.next == |p| && s.qualifier == '\0' && r != "" && r[0] != 'h' && r[0] != 'l'
    requires qualifier == 'h' || qualifier == 'l' || qualifier == '\0'
    ensures var text := if qualifier == '\0' then "" else [qualifier];
      ReadQualifier(p + text + r, s) == s.(qualifier := qualifier, next := |p| + |text|)
  {
    var text := if qualifier == '\0' then "" else [qualifier];
    assert (p + text + r)[|p|] == (text + r)[0];
  }

  /** What stands between the `%` and the conversion: flags, a width or none (-1), a precision or none, a qualifier or
      none. */
  function SpecText(flags: string, width: int, precision: int, qualifier: char): string
  {
    flags + Written(width) + (if precision < 0 then "" else "." + Written(precision))
    + (if qualifier == '\0' then "" else [qualifier])
  }

  /** A character that ends a directive whatever stands in front of it. */
  predicate IsConversion(c: char)
  {
    !IsFlag(c) && !IsDigit(c) && c != '*' && c != '.' && c != 'h' && c != 'l'
  }

  ghost predicate GoodSpec(flags: string, width: int, precision: int, qualifier: char)
  {
    && (forall k :: 0 <= k < |flags| ==> IsFlag(flags[k]))
    && (width == -1 || width > 0) && precision >= -1 && (qualifier == 'h' || qualifier == 'l' || qualifier == '\0')
  }

  function SpecOf(flags: string, width: int, precision: int, qualifier: char, next: nat, used: nat): Spec
  {
    Spec(Flags('0' in flags, false, '+' in flags, ' ' in flags, '-' in flags, '#' in flags, false), width, precision,
         qualifier, next, used)
  }

  /** A directive is read as it is written. */
  lemma SpecRoundTrip(p: string, flags: string, width: int, precision: int, qualifier: char, r: string, args: Args, k: nat)
    requires GoodSpec(flags, width, precision, qualifier) && r != "" && IsConversion(r[0])
    ensures ReadSpec(p + SpecText(flags, width, precision, qualifier) + r, |p|, args, k) ==
            SpecOf(flags, width, precision, qualifier, |p| + |SpecText(flags, width, precision, qualifier)|, k)
  {
    hide ReadFlags, ReadWidth, ReadPrecision, ReadQualifier, ReadSpec;
    var w, d := Written(width), if precision < 0 then "" else "." + Written(precision);
    var q := if qualifier == '\0' then "" else [qualifier];
    var fmt := p + SpecText(flags, width, precision, qualifier) + r;
    Splits(p, flags, w, d, q, r);
    RestBegins(width, d, q, r);
    FlagsRead(p, flags, w + (d + (q + r)), NO_FLAGS);
    var s0 := SpecOf(flags, -1, -1, '\0', |p| + |flags|, k);
    WidthRead(p + flags, width, d + (q + r), s0, args);
    var s1 := s0.(width := width, next := |p| + |flags| + |w|);
    PrecisionRead(p + flags + w, precision, q + r, s1, args);
    var s2 := s1.(precision := precision, next := |p| + |flags| + |w| + |d|);
    QualifierRead(p + flags + w + d, qualifier, r, s2);
    ReadsOn(fmt, |p|, args, k, s0.flags, |p| + |flags|, s1, s2);
  }

  lemma ReadsOn(fmt: string, i: nat, args: Args, k: nat, f: Flags, j: nat, s1: Spec, s2: Spec)
    requires i <= |fmt| && ReadFlags(fmt, i, NO_FLAGS) == (f, j) && j <= |fmt|
    requires ReadWidth(fmt, Spec(f, -1, -1, '\0', j, k), args) == s1 && s1.next <= |fmt|
    requires ReadPrecision(fmt, s1, args) == s2
    ensures ReadSpec(fmt, i, args, k) == ReadQualifier(fmt, s2)
  {
    hide ReadFlags, ReadWidth, ReadPrecision, ReadQualifier;
  }

  /** The places where reading goes on. */
  lemma Splits(p: string, flags: string, w: string, d: string, q: string, r: string)
    ensures var fmt := p + (flags + w + d + q) + r;
      && fmt == p + flags + (w + (d + (q + r))) == (p + flags) + w + (d + (q + r))
      && fmt == (p + flags + w) + d + (q + r) == (p + flags + w + d) + q + r
  {
  }

  lemma RestBegins(width: int, d: string, q: string, r: string)
    requires r != "" && IsConversion(r[0]) && (width == -1 || width > 0)
    requires (q == "" || q[0] == 'h' || q[0] == 'l') && (d == "" || d[0] == '.')
    ensures (q + r)[0] != '.' && !IsDigit((q + r)[0])
    ensures var rest := d + (q + r); rest != "" && !IsDigit(rest[0]) && rest[0] != '*' && !IsFlag(rest[0])
    ensures var rest := Written(width) + (d + (q + r)); rest != "" && !IsFlag(rest[0])
  {
    if width > 0 {
      DigitsSayValue(width, 10, false);
      DigitsAreDecimal(width, false);
      assert IsDigit(Digits(width, 10, false)[0]);
    }
  }

  predicate TakesArgument(c: char)
  {
    IsInteger(c) || c == 'c' || c == 's' || c == 'p'
  }

  /** `*`: the width or precision is the next argument; a negative width means left-justified, a negative precision 0. */
  lemma StarsRead(p: string, r: string, s: Spec, args: Args)
    requires s.next == |p|
    ensures var w := args(s.used).word % 0x1_0000_0000; var n := if w >= 0x8000_0000 then w - 0x1_0000_0000 else w;
      && ReadWidth(p + "*" + r, s, args) ==
         s.(width := if n < 0 then -n else n, flags := s.flags.(left := s.flags.left || n < 0), next := |p| + 1,
            used := s.used + 1)
      && ReadPrecision(p + ".*" + r, s, args) ==
         s.(precision := if n < 0 then 0 else n, next := |p| + 2, used := s.used + 1)
  {
    assert (p + "*" + r)[|p|] == '*';
    assert (p + ".*" + r)[|p|] == '.' && (p + ".*" + r)[|p| + 1] == '*';
  }

  /** The integer conversions: `d` and `i` print a signed decimal, `u` an unsigned one, `x`, `o` and `X` hexadecimals, the
      last in capitals; `h` leaves the low half of the argument, with its sign if it has one.  One argument is used. */
  lemma IntegersPrint(fmt: string, s: Spec, args: Args)
    ensures var c, w := At(fmt, s.next), args(s.used).word % 0x1_0000_0000;
      var low := w % 0x1_0000;
      var unsigned, signed := if s.qualifier == 'h' then low else w,
                              if s.qualifier == 'h' then (if low >= 0x8000 then 0xffff_0000 + low else low) else w;
      && (c == 'd' || c == 'i' ==>
            Convert(fmt, s, args).text == Number(signed, 10, s.width, s.precision, s.flags.(sign := true)))
      && (c == 'u' ==> Convert(fmt, s, args).text == Number(unsigned, 10, s.width, s.precision, s.flags))
      && (c == 'x' || c == 'o' ==> Convert(fmt, s, args).text == Number(unsigned, 16, s.width, s.precision, s.flags))
      && (c == 'X' ==> Convert(fmt, s, args).text == Number(unsigned, 16, s.width, s.precision, s.flags.(large := true)))
      && (c == 'd' || c == 'i' || c == 'u' || c == 'x' || c == 'o' || c == 'X' ==>
            Convert(fmt, s, args).next == s.next + 1 && Convert(fmt, s, args).used == s.used + 1)
  {
    hide Number, Integer, Word, Convert;
    var w := Word(args, s.used);
    WordIs(args, s.used);
    var signed, unsigned := Integer(w, s.qualifier, true), Integer(w, s.qualifier, false);
    IntegerIs(w, s.qualifier);
    EightIsSixteen(unsigned, s.width, s.precision, s.flags);
    match At(fmt, s.next)
    case 'd' => ConvertInteger(fmt, s, args, true, false);
    case 'i' => ConvertInteger(fmt, s, args, true, false);
    case 'u' => ConvertInteger(fmt, s, args, false, false);
    case 'x' => ConvertInteger(fmt, s, args, false, false);
    case 'o' => ConvertInteger(fmt, s, args, false, false);
    case 'X' => ConvertInteger(fmt, s, args, false, true);
    case _ =>
  }

  lemma WordIs(args: Args, k: nat)
    ensures Word(args, k) == args(k).word % 0x1_0000_0000
  {
  }

  lemma IntegerIs(w: nat, qualifier: char)
    requires w < TWO32
    ensures Integer(w, qualifier, false) == if qualifier == 'h' then w % 0x1_0000 else w
    ensures Integer(w, qualifier, true) ==
      if qualifier == 'h' then (if w % 0x1_0000 >= 0x8000 then 0xffff_0000 + w % 0x1_0000 else w % 0x1_0000) else w
  {
  }

  lemma ConvertInteger(fmt: string, s: Spec, args: Args, sign: bool, large: bool)
    requires var c := At(fmt, s.next); IsInteger(c) && sign == (c == 'd' || c == 'i') && large == (c == 'X')
    ensures var c := At(fmt, s.next);
      Convert(fmt, s, args) ==
        Piece(Number(Integer(Word(args, s.used), s.qualifier, sign),
                     if c == 'o' then 8 else if c == 'x' || c == 'X' then 16 else 10,
                     s.width, s.precision,
                     if sign then s.flags.(sign := true) else if large then s.flags.(large := true) else s.flags),
              s.next + 1, s.used + 1)
  {
    hide Number, Integer, Word;
  }

  lemma EightIsSixteen(num: nat, width: int, precision: int, f: Flags)
    requires num < TWO32
    ensures Number(num, 8, width, precision, f) == Number(num, 16, width, precision, f)
  {
    hide Digits, Repeat, Max, Magnitude, Sign;
  }

  /** The others: `p` prints a hexadecimal of eight places if no width is given, `c` and `s` their argument, `%%` a per cent
      sign; what is no conversion is printed as it stands, and a `%` at the end of the format as well. */
  lemma OthersPrint(fmt: string, s: Spec, args: Args)
    requires s.next <= |fmt| && '\0' !in fmt
    ensures var c, w, p := At(fmt, s.next), args(s.used).word % 0x1_0000_0000, Convert(fmt, s, args);
      && (c == 'p' && s.width == -1 ==> p.text == Number(w, 16, 8, s.precision, s.flags.(zeropad := true)))
      && (c == 'p' && s.width != -1 ==> p.text == Number(w, 16, s.width, s.precision, s.flags))
      && (c == 'c' ==> p.text == Justify([(w % 256) as char], s.width, s.flags.left))
      && (c == 's' ==> p.text == Justify(Shown(if args(s.used).text.NoText? then "(NULL)" else args(s.used).text.chars,
                                               s.width, s.precision), s.width, s.flags.left))
      && (c == '%' ==> p == Piece("%", s.next + 1, s.used))
      && (c == 'p' || c == 'c' || c == 's' ==> p.next == s.next + 1 && p.used == s.used + 1)
      && (s.next == |fmt| ==> p == Piece("%", s.next, s.used))
      && (s.next < |fmt| && !TakesArgument(c) && c != '%' ==> p == Piece(['%', c], s.next + 1, s.used))
  {
    if s.next < |fmt| { assert fmt[s.next] in fmt; }
    hide Number, Justify, Shown;
  }

  /** As long as the width or the text, whichever is longer; the text at the left or the right end, blanks elsewhere. */
  lemma JustifyIs(text: string, width: int, left: bool)
    ensures var r := Justify(text, width, left);
      && |r| == (if width > |text| then width else |text|)
      && (left ==> r[..|text|] == text && forall i :: |text| <= i < |r| ==> r[i] == ' ')
      && (!left ==> r[|r| - |text|..] == text && forall i :: 0 <= i < |r| - |text| ==> r[i] == ' ')
  {
    RepeatAt(' ', width - |text|);
  }

  /** A prefix: as much as width and precision both let through, where a negative width and a precision of 0 or less let
      all of it. */
  lemma ShownIs(text: string, width: int, precision: int)
    ensures var r := Shown(text, width, precision);
      && r <= text && (width >= 0 ==> |r| <= width) && (precision > 0 ==> |r| <= precision)
      && (|r| == |text| || (width >= 0 && |r| == width) || (precision > 0 && |r| == precision))
  {
  }

  // ----- a directive in a text -----

  /** Characters that are no per cent signs stand for themselves. */
  lemma {:induction false} ExpandText(done: string, fmt: string, i: nat, j: nat, args: Args, k: nat)
    requires i <= j <= |fmt| && '\0' !in fmt && '%' !in fmt[i..j]
    ensures Expand(done, fmt, i, args, k) == Expand(done + fmt[i..j], fmt, j, args, k)
    decreases j - i
  {
    if i < j {
      assert fmt[i..j] == [fmt[i]] + fmt[i + 1..j];
      assert NextPiece(fmt, i, args, k) == Piece([fmt[i]], i + 1, k);
      ExpandText(done + [fmt[i]], fmt, i + 1, j, args, k);
      assert done + [fmt[i]] + fmt[i + 1..j] == done + fmt[i..j];
    } else {
      assert done + fmt[i..j] == done;
    }
  }

  /** A format with one directive prints what stands before it, what the directive says of the first argument, and what
      stands behind it. */
  lemma DirectiveInText(a: string, flags: string, width: int, precision: int, qualifier: char, c: char, b: string,
                        args: Args)
    requires GoodSpec(flags, width, precision, qualifier) && TakesArgument(c)
    requires '%' !in a && '%' !in b && '\0' !in a && '\0' !in b
    ensures var fmt := a + "%" + SpecText(flags, width, precision, qualifier) + [c] + b;
      && '\0' !in fmt
      && Formatted(fmt, args) ==
           a + Convert(fmt, SpecOf(flags, width, precision, qualifier, |fmt| - |b| - 1, 0), args).text + b
  {
    var spec := SpecText(flags, width, precision, qualifier);
    var fmt := a + "%" + spec + [c] + b;
    var s := SpecOf(flags, width, precision, qualifier, |a| + 1 + |spec|, 0);
    SpecHasNoNul(flags, width, precision, qualifier);
    ConversionEnds(c);
    DirectiveReads(a, flags, width, precision, qualifier, c, b, args, spec, fmt, s);
    hide *;
    Places(a, spec, c, b);
    AtIs(fmt, s.next);
    PrintsAround(a, b, fmt, s, args);
  }

  lemma AtIs(fmt: string, i: nat)
    requires i < |fmt|
    ensures At(fmt, i) == fmt[i]
  {
  }

  lemma ConversionEnds(c: char)
    requires TakesArgument(c)
    ensures IsConversion(c) && c != '\0'
  {
  }

  lemma DirectiveReads(a: string, flags: string, width: int, precision: int, qualifier: char, c: char, b: string, args: Args,
                       spec: string, fmt: string, s: Spec)
    requires GoodSpec(flags, width, precision, qualifier) && IsConversion(c)
    requires spec == SpecText(flags, width, precision, qualifier) && fmt == a + "%" + spec + [c] + b
    requires s == SpecOf(flags, width, precision, qualifier, |a| + 1 + |spec|, 0)
    ensures ReadSpec(fmt, |a| + 1, args, 0) == s && s.next == |a| + 1 + |spec| && s.used == 0
  {
    hide SpecText, ReadSpec, GoodSpec, IsConversion;
    SpecRoundTrip(a + "%", flags, width, precision, qualifier, [c] + b, args, 0);
    assert fmt == (a + "%") + spec + ([c] + b);
  }

  lemma Places(a: string, spec: string, c: char, b: string)
    requires '%' !in a && '%' !in b && '\0' !in a && '\0' !in b && '\0' !in spec && c != '\0'
    ensures var fmt, n := a + "%" + spec + [c] + b, |a| + 1 + |spec|;
      && fmt == (a + "%") + spec + ([c] + b) && '\0' !in fmt && |fmt| == n + 1 + |b|
      && fmt[0..|a|] == a && fmt[|a|] == '%' && fmt[n] == c && fmt[n + 1..|fmt|] == b
  {
  }

  /** Text, one directive, text. */
  lemma PrintsAround(a: string, b: string, fmt: string, s: Spec, args: Args)
    requires '\0' !in fmt && '%' !in a && '%' !in b && |a| < s.next < |fmt| && fmt[|a|] == '%'
    requires fmt[0..|a|] == a && fmt[s.next + 1..|fmt|] == b && TakesArgument(At(fmt, s.next))
    requires ReadSpec(fmt, |a| + 1, args, 0) == s && s.used == 0
    ensures Formatted(fmt, args) == a + Convert(fmt, s, args).text + b
  {
    hide *;
    OneArgument(fmt, s, args);
    PieceIs(fmt, |a|, args, 0);
    var t := Convert(fmt, s, args).text;
    FormattedBegins(a, fmt, args);
    ExpandOn(a, fmt, |a|, args, 0);
    ExpandEnds(a + t, b, fmt, s.next + 1, args, 1);
  }

  lemma FormattedBegins(a: string, fmt: string, args: Args)
    requires '\0' !in fmt && '%' !in a && |a| <= |fmt| && fmt[0..|a|] == a
    ensures Formatted(fmt, args) == Expand(a, fmt, |a|, args, 0)
  {
    hide Expand;
    ExpandText("", fmt, 0, |a|, args, 0);
    assert "" + a == a;
  }

  lemma ExpandEnds(done: string, b: string, fmt: string, i: nat, args: Args, k: nat)
    requires '\0' !in fmt && '%' !in b && i <= |fmt| && fmt[i..|fmt|] == b
    ensures Expand(done, fmt, i, args, k) == done + b
  {
    ExpandText(done, fmt, i, |fmt|, args, k);
  }

  lemma ExpandOn(done: string, fmt: string, i: nat, args: Args, k: nat)
    requires i < |fmt| && '\0' !in fmt
    ensures var p := NextPiece(fmt, i, args, k);
      p.next <= |fmt| && Expand(done, fmt, i, args, k) == Expand(done + p.text, fmt, p.next, args, p.used)
  {
    hide NextPiece;
  }

  lemma OneArgument(fmt: string, s: Spec, args: Args)
    requires TakesArgument(At(fmt, s.next))
    ensures Convert(fmt, s, args).next == s.next + 1 && Convert(fmt, s, args).used == s.used + 1
  {
    hide Number, Justify, Shown;
  }

  lemma SpecHasNoNul(flags: string, width: int, precision: int, qualifier: char)
    requires GoodSpec(flags, width, precision, qualifier)
    ensures '\0' !in SpecText(flags, width, precision, qualifier)
  {
    if width >= 0 { DigitsAreDecimal(width, false); }
    if precision >= 0 { DigitsAreDecimal(precision, false); }
  }

  /** %d in a text: every 32-bit word comes out as the integer that it stands for. */
  lemma SignedInText(a: string, b: string, args: Args)
    requires '%' !in a && '%' !in b && '\0' !in a && '\0' !in b && (b == "" || !IsDigit(b[0]))
    ensures '\0' !in a + "%d" + b
    ensures var out, w := Formatted(a + "%d" + b, args), args(0).word % 0x1_0000_0000;
      && |out| > |a| + |b| && out[..|a|] == a && out[|out| - |b|..] == b
      && if w >= 0x8000_0000 then out[|a|] == '-' && Atoi(out, |a| + 1, 0) == (0x1_0000_0000 - w, |out| - |b|)
         else Atoi(out, |a|, 0) == (w, |out| - |b|)
  {
    hide *;
    var w := Word(args, 0);
    WordIs(args, 0);
    SignedDirective(a, b, args);
    PlainSigned(w);
    SignedOut(Formatted(a + "%d" + b, args), a, b, w);
  }

  lemma SignedOut(out: string, a: string, b: string, w: nat)
    requires w < TWO32 && (b == "" || !IsDigit(b[0]))
    requires out == a + ((if w >= 0x8000_0000 then "-" else "")
                         + Digits(if w >= 0x8000_0000 then 0x1_0000_0000 - w else w, 10, false)) + b
    ensures |out| > |a| + |b| && out[..|a|] == a && out[|out| - |b|..] == b
    ensures if w >= 0x8000_0000 then out[|a|] == '-' && Atoi(out, |a| + 1, 0) == (0x1_0000_0000 - w, |out| - |b|)
            else Atoi(out, |a|, 0) == (w, |out| - |b|)
  {
    if w >= 0x8000_0000 {
      ReadSigned(a, "-", b, 0x1_0000_0000 - w);
    } else {
      ReadSigned(a, "", b, w);
    }
    hide *;
  }

  lemma SignedDirective(a: string, b: string, args: Args)
    requires '%' !in a && '%' !in b && '\0' !in a && '\0' !in b
    ensures '\0' !in a + "%d" + b
    ensures Formatted(a + "%d" + b, args) == a + Number(Word(args, 0), 10, -1, -1, NO_FLAGS.(sign := true)) + b
  {
    var fmt := a + "%d" + b;
    var s := SpecOf("", -1, -1, '\0', |fmt| - |b| - 1, 0);
    PlainSpec();
    assert a + "%" + "" + ['d'] + b == fmt && fmt[|a| + 1] == 'd';
    DirectiveInText(a, "", -1, -1, '\0', 'd', b, args);
    IntegersPrint(fmt, s, args);
    hide Convert, Number, Formatted;
  }

  lemma PlainSpec()
    ensures SpecText("", -1, -1, '\0') == "" && GoodSpec("", -1, -1, '\0')
    ensures SpecOf("", -1, -1, '\0', 0, 0).flags == NO_FLAGS
  {
  }

  lemma PlainSigned(w: nat)
    requires w < TWO32
    ensures var f := NO_FLAGS.(sign := true);
      Number(w, 10, -1, -1, f) == (if w >= 0x8000_0000 then "-" else "")
                                  + Digits(if w >= 0x8000_0000 then 0x1_0000_0000 - w else w, 10, false)
  {
    DigitsAreDecimal(Magnitude(w, NO_FLAGS.(sign := true)), false);
    hide Digits;
  }

  lemma ReadSigned(a: string, sign: string, b: string, n: nat)
    requires b == "" || !IsDigit(b[0])
    ensures var out := a + (sign + Digits(n, 10, false)) + b;
      && |a| + |sign| + |b| < |out| && out[..|a|] == a && (sign != "" ==> out[|a|] == sign[0])
      && Atoi(out, |a| + |sign|, 0) == (n, |out| - |b|) && out[|out| - |b|..] == b
  {
    DecimalRoundTrip(n, false, b);
    DigitsAreDecimal(n, false);
    hide Digits, Atoi;
    AtoiBehind(a + sign, Digits(n, 10, false) + b, 0, 0);
    assert a + (sign + Digits(n, 10, false)) + b == (a + sign) + (Digits(n, 10, false) + b);
  }

  // ----- the code -----

  function Rev(s: seq<char>): seq<char>
  {
    if s == [] then [] else Rev(s[1..]) + [s[0]]
  }

  lemma {:induction false} RevAppend(s: seq<char>, c: char)
    ensures Rev(s + [c]) == [c] + Rev(s)
  {
    if s == [] {
      assert [c][1..] == [];
    } else {
      assert (s + [c])[1..] == s[1..] + [c];
      RevAppend(s[1..], c);
    }
  }

  /** The last digit taken off. */
  lemma LastDigit(n: nat, b: nat, large: bool)
    requires 2 <= b <= 16
    ensures Digits(n, b, large) == (if n / b == 0 then "" else Digits(n / b, b, large)) + [Digit(n % b, large)]
  {
    if n < b { assert n / b == 0 && n % b == n; } else { assert n / b > 0 by { Quotient(n, b); } }
  }

  lemma Quotient(n: nat, b: nat)
    requires 0 < b <= n
    ensures n / b > 0
  {
  }

  /** `done` are the last digits of `num`, last first, and `n` is what they leave. */
  ghost predicate Remaining(num: nat, n: nat, b: nat, large: bool, done: string)
    requires 2 <= b <= 16
  {
    Digits(num, b, large) == (if n == 0 then "" else Digits(n, b, large)) + Rev(done)
  }

  lemma ZeroDigits(b: nat, large: bool)
    requires 2 <= b <= 16
    ensures Rev(['0']) == Digits(0, b, large)
  {
    assert ['0'][1..] == [];
  }

  lemma NothingTaken(num: nat, b: nat, large: bool)
    requires 2 <= b <= 16 && num > 0
    ensures Remaining(num, num, b, large, [])
  {
    assert Digits(num, b, large) + [] == Digits(num, b, large);
  }

  /** One turn of the loop that takes the digits off. */
  lemma DigitTaken(num: nat, n: nat, q: nat, d: nat, b: nat, large: bool, done: string, k: nat)
    requires b == 10 || b == 16
    requires n > 0 && Remaining(num, n, b, large, done) && n < Pow8(k) && q == n / b && d == n % b && d < 16
    ensures k > 0 && q < Pow8(k - 1) && Remaining(num, q, b, large, done + [Digit(d, large)])
  {
    SmallerPower(n, b, k);
    OneMoreDigit(num, n, b, large, done);
  }

  lemma OneMoreDigit(num: nat, n: nat, b: nat, large: bool, done: string)
    requires 2 <= b <= 16 && n > 0 && Remaining(num, n, b, large, done)
    ensures Remaining(num, n / b, b, large, done + [Digit(n % b, large)])
  {
    LastDigit(n, b, large);
    OneDigit(if n / b == 0 then "" else Digits(n / b, b, large), Digit(n % b, large), done);
  }

  /** One more digit in the temporary buffer: `front` are the digits still to come. */
  lemma OneDigit(front: string, digit: char, before: seq<char>)
    ensures (front + [digit]) + Rev(before) == front + Rev(before + [digit])
  {
    RevAppend(before, digit);
    assert (front + [digit]) + Rev(before) == front + ([digit] + Rev(before));
  }

  lemma RepeatMore(c: char, n: int)
    requires n > 0
    ensures Repeat(c, n) == Repeat(c, n - 1) + [c]
  {
    RepeatEnds(c, n - 1);
  }

  lemma {:induction false} RepeatEnds(c: char, n: int)
    ensures [c] + Repeat(c, n) == Repeat(c, n) + [c]
    decreases if n < 0 then 0 else n
  {
    if n > 0 { RepeatEnds(c, n - 1); }
  }

  lemma SmallerPower(n: nat, b: nat, k: nat)
    requires n < Pow8(k) && 8 <= b && n > 0
    ensures k > 0 && n / b < Pow8(k - 1)
  {
    assert n < 8 * Pow8(k - 1);
    assert n / b <= n / 8 by { Quotients(n, b); }
  }

  lemma Quotients(n: nat, b: nat)
    requires b >= 8
    ensures n / b <= n / 8
  {
    var q := n / b;
    assert q * 8 <= q * b <= n;
  }

  class Printer {
    const fmt: string
    const args: Args
    const buf: array<char>
    const size: nat
    var len: nat              // str - buf
    var at: nat               // fmt, as a place in it
    var used: nat             // arguments taken

    ghost var out: string     // everything printed so far
    ghost const was: seq<char>    // what the buffer held before

    /** What has been printed is in the buffer as far as it reaches; the rest of the buffer is untouched. */
    ghost predicate Valid()
      reads this, buf
    {
      && size <= buf.Length == |was| && len == |out| && at <= |fmt| && '\0' !in fmt
      && (forall i :: 0 <= i < buf.Length ==> buf[i] == if i < len && i < size then out[i] else was[i])
    }

    /** What the format says comes next. */
    ghost function Next(): Piece
      reads this, buf
      requires Valid() && at < |fmt|
    {
      NextPiece(fmt, at, args, used)
    }

    constructor (buf: array<char>, size: nat, fmt: string, args: Args)
      requires size <= buf.Length && '\0' !in fmt
      ensures Valid() && this.buf == buf && this.size == size && this.fmt == fmt && this.args == args
      ensures out == "" && at == 0 && used == 0 && was == buf[..]
    {
      this.buf, this.size, this.fmt, this.args := buf, size, fmt, args;
      len, at, used, out, was := 0, 0, 0, "", buf[..];
    }

    /** if (str < end) *str = c; ++str; */
    method Put(c: char)
      requires Valid()
      modifies this`len, this`out, buf
      ensures Valid() && out == old(out) + [c]
    {
      if len < size { buf[len] := c; }
      len := len + 1;
      out := out + [c];
    }

    /** while (n-- > 0) put c. */
    method Fill(c: char, n: int) returns (after: int)
      requires Valid()
      modifies this`len, this`out, buf
      ensures Valid() && out == old(out) + Repeat(c, n)
      ensures after == if n > 0 then -1 else n - 1
    {
      after := n;
      ghost var done := 0;
      while after > 0
        invariant Valid() && done >= 0 && after == n - done && (n > 0 ==> after >= 0) && (n <= 0 ==> done == 0)
        invariant out == old(out) + Repeat(c, done)
        decreases after
      {
        Put(c);
        done := done + 1;
        RepeatMore(c, done);
        after := after - 1;
      }
      after := after - 1;
    }

    /** divide: the quotient and the remainder, by one of two constants. */
    method Divide(n: nat, base: nat) returns (q: nat, d: nat)
      ensures q == n / Radix(base) && d == n % Radix(base) && d < 16
    {
      if base == 10 {
        q, d := n / 10, n % 10;
      } else {
        q, d := n / 16, n % 16;
      }
    }

    /** while (num != 0) tmp[i++] = digits[divide(&num, base)], or a single 0. */
    method TakeDigits(num: nat, base: nat, large: bool) returns (tmp: array<char>, i: nat)
      requires num < TWO32
      ensures fresh(tmp) && tmp.Length == 16 && i <= 16 && Rev(tmp[..i]) == Digits(num, Radix(base), large)
    {
      tmp := new char[16];
      hide Rev, Digits;
      ZeroDigits(Radix(base), large);
      if num == 0 {
        tmp[0] := '0';
        i := 1;
        assert tmp[..1] == ['0'];
      } else {
        i := TakeNonZero(tmp, num, base, large);
      }
    }

    method TakeNonZero(tmp: array<char>, num: nat, base: nat, large: bool) returns (i: nat)
      requires 0 < num < TWO32 && tmp.Length == 16
      modifies tmp
      ensures i <= 16 && Rev(tmp[..i]) == Digits(num, Radix(base), large)
    {
      hide Pow8, Digit, Rev, Digits;
      ghost var b := Radix(base);
      PowerOf11();
      NothingTaken(num, b, large);
      var n: nat := num;
      i := 0;
      assert tmp[..0] == [];
      while n != 0
        invariant i <= 11 && n < Pow8(11 - i)
        invariant Remaining(num, n, b, large, tmp[..i])
      {
        hide Remaining, Radix;
        ghost var before, was := tmp[..i], n;
        var digit;
        n, digit := Divide(n, base);
        DigitTaken(num, was, n, digit, b, large, before, 11 - i);
        tmp[i] := Digit(digit, large);
        assert tmp[..i + 1] == before + [Digit(digit, large)];
        i := i + 1;
      }
      assert "" + Rev(tmp[..i]) == Rev(tmp[..i]);
    }

    /** put tmp[i - 1] .. tmp[0]. */
    method PutReversed(tmp: array<char>, i: nat)
      requires Valid() && i <= tmp.Length && tmp != buf
      modifies this`len, this`out, buf
      ensures Valid() && out == old(out) + Rev(tmp[..i])
    {
      var k := i;
      ghost var all, before := tmp[..i], out;
      assert all[..i] == all;
      while k > 0
        invariant 0 <= k <= i && Valid() && tmp[..i] == all
        invariant out + Rev(all[..k]) == before + Rev(all)
      {
        k := k - 1;
        assert all[..k + 1] == all[..k] + [all[k]];
        RevAppend(all[..k], all[k]);
        assert out + ([all[k]] + Rev(all[..k])) == (out + [all[k]]) + Rev(all[..k]);
        Put(tmp[k]);
      }
      assert all[..0] == [] && out + [] == out;
    }

    /** Spaces on the left, as many as leave room for the sign. */
    method PutSpaces(sign: string, size0: int) returns (size: int)
      requires Valid() && |sign| <= 1
      modifies this`len, this`out, buf
      ensures Valid() && out == old(out) + Repeat(' ', size0 - |sign|) && size < 0
    {
      RepeatNone(' ', size0);
      RepeatNone(' ', size0 - |sign|);
      hide Repeat;
      size := size0;
      if sign != "" && size > 0 { size := size - 1; }
      size := Fill(' ', size);
    }

    /** Spaces on the left, the sign, and zeros on the left; what is left of `size` is for the right. */
    method PutLead(sign: string, c: char, size0: int, left: bool) returns (size: int)
      requires Valid() && |sign| <= 1
      modifies this`len, this`out, buf
      ensures Valid() && out == old(out) + Lead(sign, c, size0 - |sign|, left)
      ensures if left then size == size0 - |sign| else size < 0
    {
      size := size0;
      ghost var o := out;
      hide Repeat;
      if c != '0' && !left { size := PutSpaces(sign, size0); }
      if sign != "" {
        Put(sign[0]);
        size := size - 1;
      }
      if !left {
        RepeatNone(c, size);
        size := Fill(c, size);
      }
    }

    /** print_number. */
    method PrintNumber(num: nat, base: nat, s: int, precision: int, f: Flags)
      requires Valid() && num < TWO32
      modifies this`len, this`out, buf
      ensures Valid() && out == old(out) + Number(num, base, s, precision, f)
    {
      hide Number, Lead, Rev, Digits, Magnitude, Assembled, Repeat, Radix, Sign;
      var tmp, i := TakeDigits(Magnitude(num, f), base, f.large);
      ghost var digits := Rev(tmp[..i]);
      RevLength(tmp[..i]);
      var count := if i > precision then i else precision;
      SignLength(num, f);
      NumberParts(num, base, s, precision, f, digits, count);
      PutNumber(Sign(num, f), if f.zeropad && !f.left then '0' else ' ', s - count, f.left, tmp, i, count, precision);
    }

    /** Its second half, once the digits are in `tmp`. */
    method PutNumber(sign: string, c: char, size0: int, left: bool, tmp: array<char>, i: nat, count: int, precision: int)
      requires Valid() && |sign| <= 1 && i <= tmp.Length && tmp != buf
      modifies this`len, this`out, buf
      ensures Valid()
      ensures out == old(out) + Assembled(sign, c, size0 - |sign|, left, count - i,
                                          if precision == 0 then "" else Rev(tmp[..i]))
    {
      hide Lead, Rev, Repeat;
      ghost var o := out;
      var size := PutLead(sign, c, size0, left);
      ghost var zeros, shown := Repeat('0', count - i), if precision == 0 then "" else Rev(tmp[..i]);
      PutBody(tmp, i, count, precision);
      RepeatNone(' ', size);
      RepeatNone(' ', -1);
      var rest := Fill(' ', size);
      Regroup(o, Lead(sign, c, size0 - |sign|, left), zeros, shown, Repeat(' ', size));
    }

    /** Zeros up to the precision, and the digits. */
    method PutBody(tmp: array<char>, i: nat, count: int, precision: int)
      requires Valid() && i <= tmp.Length && tmp != buf
      modifies this`len, this`out, buf
      ensures Valid()
      ensures out == old(out) + (Repeat('0', count - i) + (if precision == 0 then "" else Rev(tmp[..i])))
    {
      var zeros := Fill('0', count - i);
      if precision != 0 { PutReversed(tmp, i); }
    }

    // ----- reading the format -----

    /** The while (1) that collects flags. */
    method TakeFlags() returns (f: Flags)
      requires Valid() && at < |fmt|
      modifies this`at
      ensures Valid() && (f, at) == ReadFlags(fmt, old(at) + 1, NO_FLAGS)
    {
      f := NO_FLAGS;
      at := at + 1;
      while at < |fmt| && (fmt[at] == '-' || fmt[at] == '+' || fmt[at] == ' ' || fmt[at] == '#' || fmt[at] == '0')
        invariant Valid()
        invariant ReadFlags(fmt, at, f) == ReadFlags(fmt, old(at) + 1, NO_FLAGS)
        decreases |fmt| - at
      {
        if fmt[at] == '-' { f := f.(left := true); }
        else if fmt[at] == '+' { f := f.(plus := true); }
        else if fmt[at] == ' ' { f := f.(space := true); }
        else if fmt[at] == '#' { f := f.(special := true); }
        else { f := f.(zeropad := true); }
        at := at + 1;
      }
    }

    /** skip_atoi. */
    method SkipAtoi() returns (i: nat)
      requires Valid()
      modifies this`at
      ensures Valid() && (i, at) == Atoi(fmt, old(at), 0)
    {
      i := 0;
      while at < |fmt| && IsDigit(fmt[at])
        invariant Valid() && Atoi(fmt, at, i) == Atoi(fmt, old(at), 0)
        decreases |fmt| - at
      {
        i := i * 10 + (fmt[at] as int - '0' as int);
        at := at + 1;
      }
    }

    /** va_arg of an integer. */
    method TakeWord() returns (w: nat)
      modifies this`used
      ensures w == Word(args, old(used)) && used == old(used) + 1
    {
      w := Word(args, used);
      used := used + 1;
    }

    method TakeWidth(ghost s: Spec) returns (width: int, left: bool)
      requires Valid() && s.next == at && s.used == used && s.width == -1
      modifies this`at, this`used
      ensures Valid()
      ensures ReadWidth(fmt, s, args) ==
              s.(width := width, flags := if left then s.flags.(left := true) else s.flags, next := at, used := used)
    {
      width, left := -1, false;
      if IsDigit(At(fmt, at)) {
        width := SkipAtoi();
      } else if At(fmt, at) == '*' {
        at := at + 1;
        var w := TakeWord();
        width := Signed(w);
        if width < 0 { width, left := -width, true; }
      }
    }

    method TakePrecision(ghost s: Spec) returns (precision: int)
      requires Valid() && s.next == at && s.used == used && s.precision == -1
      modifies this`at, this`used
      ensures Valid() && ReadPrecision(fmt, s, args) == s.(precision := precision, next := at, used := used)
    {
      precision := -1;
      if At(fmt, at) == '.' {
        at := at + 1;
        if IsDigit(At(fmt, at)) {
          precision := SkipAtoi();
        } else if At(fmt, at) == '*' {
          at := at + 1;
          var w := TakeWord();
          precision := Signed(w);
        }
        if precision < 0 { precision := 0; }
      }
    }

    /** All of a directive but its conversion character. */
    method TakeSpec() returns (s: Spec)
      requires Valid() && at < |fmt|
      modifies this`at, this`used
      ensures Valid() && s == ReadSpec(fmt, old(at) + 1, args, old(used)) && at == s.next && used == s.used
    {
      var f := TakeFlags();
      s := Spec(f, -1, -1, '\0', at, used);
      var width, left := TakeWidth(s);
      s := s.(width := width, flags := if left then f.(left := true) else f, next := at, used := used);
      var precision := TakePrecision(s);
      s := s.(precision := precision, next := at, used := used);
      if At(fmt, at) == 'h' || At(fmt, at) == 'l' {
        s := s.(qualifier := At(fmt, at));
        at := at + 1;
        s := s.(next := at);
      }
    }

    // ----- the conversions -----

    method PutChar(c: char, width: int, left: bool)
      requires Valid()
      modifies this`len, this`out, buf
      ensures Valid() && out == old(out) + Justify([c], width, left)
    {
      var fieldWidth := width;
      ghost var o := out;
      if !left { fieldWidth := Fill(' ', fieldWidth - 1); }
      assert out == o + (if left then "" else Repeat(' ', width - 1));
      Put(c);
      fieldWidth := Fill(' ', fieldWidth - 1);
    }

    /** How much of a string argument is shown. */
    method ShownLength(text: string, width: int, precision: int) returns (n: nat)
      ensures n <= |text| && Shown(text, width, precision) == text[..n]
    {
      n := 0;
      while n != width && n < |text|
        invariant 0 <= n <= |text| && (0 <= width ==> n <= width)
        decreases |text| - n
      {
        n := n + 1;
      }
      if precision > 0 && n > precision { n := precision; }
    }

    /** The first `n` characters. */
    method PutPrefix(text: string, n: nat)
      requires Valid() && n <= |text|
      modifies this`len, this`out, buf
      ensures Valid() && out == old(out) + text[..n]
    {
      var i := 0;
      while i < n
        invariant 0 <= i <= n && Valid() && out == old(out) + text[..i]
      {
        assert text[..i + 1] == text[..i] + [text[i]];
        Put(text[i]);
        i := i + 1;
      }
    }

    method PutString(text: string, width: int, precision: int, left: bool)
      requires Valid()
      modifies this`len, this`out, buf
      ensures Valid() && out == old(out) + Justify(Shown(text, width, precision), width, left)
    {
      var n := ShownLength(text, width, precision);
      hide Shown;
      var fieldWidth := width;
      if !left {
        var after := Fill(' ', fieldWidth - n);
        fieldWidth := n + after;
      }
      PutPrefix(text, n);
      RepeatNone(' ', fieldWidth - n);
      var end := Fill(' ', fieldWidth - n);
    }

    /** The conversions of integers. */
    method PutInteger(s: Spec, base: nat, sign: bool, large: bool)
      requires Valid() && used == s.used
      modifies this`len, this`used, this`out, buf
      ensures Valid() && used == s.used + 1
      ensures out == old(out) + Number(Integer(Word(args, s.used), s.qualifier, sign), base, s.width, s.precision,
                                       s.flags.(sign := sign || s.flags.sign, large := large || s.flags.large))
    {
      var flags := s.flags;
      if sign { flags := flags.(sign := true); }
      if large { flags := flags.(large := true); }
      var w := TakeWord();
      var num := w;
      if s.qualifier == 'h' {
        num := w % TWO16;
        if sign && num >= TWO15 { num := num + TWO32 - TWO16; }
      }
      PrintNumber(num, base, s.width, s.precision, flags);
    }

    /** The switch on the conversion character. */
    method PutConversion(s: Spec)
      requires Valid() && used == s.used && at == s.next
      modifies this`at, this`len, this`used, this`out, buf
      ensures Valid() && var p := Convert(fmt, s, args);
        out == old(out) + p.text && at == p.next && used == p.used
    {
      var c := At(fmt, at);
      if at < |fmt| { assert fmt[at] in fmt; }
      if IsInteger(c) {
        var base, sign, large := 10, false, false;
        if c == 'o' { base := 8; }
        else if c == 'X' { large, base := true, 16; }
        else if c == 'x' { base := 16; }
        else if c == 'd' || c == 'i' { sign := true; }
        IntegerConversion(fmt, s, args, base, sign, large);
        hide Convert;
        PutInteger(s, base, sign, large);
        at := at + 1;
      } else if c == 'c' || c == 's' || c == 'p' {
        PutArgument(s);
      } else {
        PutLiteral(s);
      }
    }

    /** %c, %s and %p. */
    method PutArgument(s: Spec)
      requires Valid() && used == s.used && at == s.next
      requires At(fmt, at) == 'c' || At(fmt, at) == 's' || At(fmt, at) == 'p'
      modifies this`at, this`len, this`used, this`out, buf
      ensures Valid() && var p := Convert(fmt, s, args);
        out == old(out) + p.text && at == p.next && used == p.used
    {
      hide Number, Justify, Shown;
      if At(fmt, at) == 'c' {
        var w := TakeWord();
        PutChar((w % 256) as char, s.width, s.flags.left);
      } else if At(fmt, at) == 's' {
        var text := if args(used).text.NoText? then "(NULL)" else args(used).text.chars;
        used := used + 1;
        PutString(text, s.width, s.precision, s.flags.left);
      } else {
        var width, flags := s.width, s.flags;
        if width == -1 { width, flags := 8, flags.(zeropad := true); }
        var w := TakeWord();
        PrintNumber(w, 16, width, s.precision, flags);
      }
      at := at + 1;
    }

    /** %%, a character that is no conversion, and the end of the format. */
    method PutLiteral(s: Spec)
      requires Valid() && used == s.used && at == s.next && (at < |fmt| ==> fmt[at] != '\0')
      requires !IsInteger(At(fmt, at)) && At(fmt, at) != 'c' && At(fmt, at) != 's' && At(fmt, at) != 'p'
      modifies this`at, this`len, this`out, buf
      ensures Valid() && var p := Convert(fmt, s, args);
        out == old(out) + p.text && at == p.next && used == p.used
    {
      Put('%');
      if at < |fmt| {
        if fmt[at] != '%' { Put(fmt[at]); }
        at := at + 1;
      }
    }

    /** The loop of rt_vsnprintf over the whole format. */
    method PutAll()
      requires Valid() && out == "" && at == 0 && used == 0
      modifies this`at, this`len, this`used, this`out, buf
      ensures Valid() && out == Formatted(fmt, args)
    {
      while at < |fmt|
        invariant Valid() && Expand(out, fmt, at, args, used) == Formatted(fmt, args)
        decreases |fmt| - at
      {
        PutPiece();
      }
    }

    /** A directive, from its `%` to its conversion. */
    method PutDirective()
      requires Valid() && at < |fmt| && fmt[at] == '%'
      modifies this`at, this`len, this`used, this`out, buf
      ensures Valid() && at > old(at)
      ensures var p := old(Next()); out == old(out) + p.text && at == p.next && used == p.used
    {
      hide NextPiece, Convert, ReadSpec;
      PieceIs(fmt, at, args, used);
      var s := TakeSpec();
      PutConversion(s);
    }

    /** A character that stands for itself. */
    method PutPlain()
      requires Valid() && at < |fmt| && fmt[at] != '%'
      modifies this`at, this`len, this`out, buf
      ensures Valid() && at > old(at)
      ensures var p := old(Next()); out == old(out) + p.text && at == p.next && used == p.used
    {
      PieceIs(fmt, at, args, used);
      hide NextPiece, Convert, ReadSpec;
      Put(fmt[at]);
      at := at + 1;
    }

    /** One character or one directive. */
    method PutPiece()
      requires Valid() && at < |fmt|
      modifies this`at, this`len, this`used, this`out, buf
      ensures Valid() && at > old(at)
      ensures var p := old(Next()); out == old(out) + p.text && at == p.next && used == p.used
    {
      if fmt[at] != '%' { PutPlain(); } else { PutDirective(); }
    }
  }

  predicate IsInteger(c: char)
  {
    c == 'o' || c == 'x' || c == 'X' || c == 'd' || c == 'i' || c == 'u'
  }

  lemma IntegerConversion(fmt: string, s: Spec, args: Args, base: nat, sign: bool, large: bool)
    requires IsInteger(At(fmt, s.next))
    requires var c := At(fmt, s.next);
      && base == (if c == 'o' then 8 else if c == 'x' || c == 'X' then 16 else 10)
      && sign == (c == 'd' || c == 'i') && large == (c == 'X')
    ensures Convert(fmt, s, args) ==
      Piece(Number(Integer(Word(args, s.used), s.qualifier, sign), base, s.width, s.precision,
                   s.flags.(sign := sign || s.flags.sign, large := large || s.flags.large)), s.next + 1, s.used + 1)
  {
    hide Number, Integer;
  }

  lemma Regroup(o: string, a: string, b: string, c: string, d: string)
    ensures o + a + (b + c) + d == o + (a + b + c + d)
  {
  }

  /** What stands before the digits. */
  function Lead(sign: string, c: char, pad: int, left: bool): string
  {
    if left then sign else if c == '0' then sign + Repeat('0', pad) else Repeat(' ', pad) + sign
  }

  /** A number from its parts. */
  function Assembled(sign: string, c: char, pad: int, left: bool, zeros: int, digits: string): string
  {
    Lead(sign, c, pad, left) + Repeat('0', zeros) + digits + Repeat(' ', if left then pad else -1)
  }

  lemma RepeatNone(c: char, n: int)
    ensures n <= 0 ==> Repeat(c, n) == ""
  {
  }

  lemma SignLength(num: nat, f: Flags)
    ensures |Sign(num, f)| <= 1
  {
  }

  lemma NumberParts(num: nat, base: nat, s: int, precision: int, f: Flags, digits: string, count: int)
    requires num < TWO32 && digits == Digits(Magnitude(num, f), Radix(base), f.large) && count == Max(|digits|, precision)
    ensures var sign := Sign(num, f);
      Number(num, base, s, precision, f) ==
        Assembled(sign, if f.zeropad && !f.left then '0' else ' ', s - count - |sign|, f.left, count - |digits|,
                  if precision == 0 then "" else digits)
  {
    hide Digits, Repeat, Magnitude, Radix;
    var sign, zeros, shown := Sign(num, f), Repeat('0', count - |digits|), if precision == 0 then "" else digits;
    var pad := s - count - |sign|;
    RepeatNone(' ', -1);
    Brackets(sign, zeros, shown, Repeat(' ', pad));
    Brackets(sign + Repeat('0', pad), zeros, shown, "");
    Brackets(Repeat(' ', pad) + sign, zeros, shown, "");
    hide Sign, Max;
  }

  lemma Brackets(a: string, b: string, c: string, d: string)
    ensures a + (b + c) + d == a + b + c + d
    ensures a + (b + c) + "" == a + (b + c)
  {
  }

  lemma PowerOf11()
    ensures Pow8(11) == 0x2_0000_0000
  {
    assert Pow8(4) == 4096;
    assert Pow8(8) == 16777216;
  }

  lemma {:induction false} RevLength(s: seq<char>)
    ensures |Rev(s)| == |s|
  {
    if s != [] { RevLength(s[1..]); }
  }

  // ----- truncation -----

  /** What a call leaves in a buffer of `size` characters that held `was`: as much of the text as fits in front of a
      NUL, the NUL, and the rest as it was. */
  function Truncated(text: string, size: nat, was: seq<char>): seq<char>
    requires size <= |was|
  {
    if size == 0 then was
    else
      var n := if |text| < size then |text| else size - 1;
      text[..n] + ['\0'] + was[n + 1..]
  }

  /** rt_vsnprintf: the text is the format's expansion whatever the size, the length returned is the whole text's, and
      the buffer holds its truncation. */
  method Vsnprintf(buf: array<char>, size: nat, fmt: string, args: Args) returns (length: nat)
    requires size <= buf.Length && '\0' !in fmt
    modifies buf
    ensures length == |Formatted(fmt, args)|
    ensures buf[..] == Truncated(Formatted(fmt, args), size, old(buf[..]))
    // as much as fits in front of the NUL, the NUL, and what was there before
    ensures var text := Formatted(fmt, args); var n := if |text| < size then |text| else size - 1;
      && (forall i :: 0 <= i < n ==> buf[i] == text[i]) && (size > 0 ==> buf[n] == '\0')
      && (forall i :: (if size > 0 then n + 1 else 0) <= i < buf.Length ==> buf[i] == old(buf[i]))
  {
    var p := new Printer(buf, size, fmt, args);
    ghost var text, was := Formatted(fmt, args), buf[..];
    hide Formatted;
    p.PutAll();
    Terminate(buf, size, p.len, text, was);
    return p.len;
  }

  /** The NUL at the end. */
  method Terminate(buf: array<char>, size: nat, len: nat, ghost text: string, ghost was: seq<char>)
    requires size <= buf.Length == |was| && len == |text|
    requires forall i :: 0 <= i < buf.Length ==> buf[i] == if i < len && i < size then text[i] else was[i]
    modifies buf
    ensures buf[..] == Truncated(text, size, was)
  {
    if size > 0 {
      if len < size {
        buf[len] := '\0';
      } else {
        buf[size - 1] := '\0';
      }
    }
  }

  /** A larger buffer never shows less, and one larger than the text shows all of it. */
  lemma TruncationMonotone(text: string, m: nat, n: nat, was: seq<char>, i: nat)
    requires 0 < m <= n <= |was| && i < m - 1 && i < |text|
    ensures Truncated(text, m, was)[i] == Truncated(text, n, was)[i] == text[i]
    ensures |text| < n ==> text + ['\0'] <= Truncated(text, n, was)
  {
  }
}
